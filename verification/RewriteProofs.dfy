/** Checksums survive every rewriter, nothing else changes, and the fast path equals the slow path. */
module RewriteProofs {
  import opened Types
  import opened Bytes
  import opened Checksum
  import opened Maps
  import opened Packet
  import opened Rewrite

  /** An option-free IPv4 header whose total length stays inside the buffer. */
  predicate WellFormed(p: seq<u8>, ip: nat) {
    && ip + 20 <= |p| && p[ip] as int % 16 == 5
    && ip + 20 <= ip + W(p, ip + 2) <= |p|
  }

  /** The datagram is long enough to hold its transport check value and ports. */
  predicate HoldsL4(p: seq<u8>, ip: nat)
    requires WellFormed(p, ip)
  {
    L4Fits(p[..ip + W(p, ip + 2)], ip + 20, p[ip + 9])
  }

  predicate IpVerifies(p: seq<u8>, ip: nat)
    requires ip + 20 <= |p|
  {
    Verifies(Sum(p, ip, ip + 20))
  }

  /** Words of the IPv4 pseudo-header. */
  function Pseudo4(src: Ip4, dst: Ip4, proto: u8, len: nat): nat {
    src.Hi() + src.Lo() + dst.Hi() + dst.Lo() + proto + len
  }

  /** Everything the transport checksum covers: the segment and, except for ICMP, the pseudo-header. */
  function L4Total(p: seq<u8>, ip: nat): nat
    requires WellFormed(p, ip)
  {
    var end := ip + W(p, ip + 2);
    Sum(p, ip + 20, end)
    + if p[ip + 9] == IPPROTO_ICMP then 0
      else Pseudo4(Addr(p, ip + 12), Addr(p, ip + 16), p[ip + 9], end - ip - 20)
  }

  predicate Changed(p: seq<u8>, ip: nat, x: Xlate, i: nat)
    requires ip + 20 <= |p|
  {
    var l4, proto := ip + 20, p[ip + 9];
    || ip + AddrOff(x.isSrc) <= i < ip + AddrOff(x.isSrc) + 4
    || ip + 10 <= i < ip + 12
    || (L4Fits(p, l4, proto) && l4 + CheckOff(proto) <= i < l4 + CheckOff(proto) + 2)
    || (L4Fits(p, l4, proto) && x.port.Some?
        && l4 + PortOff(proto, x.isSrc) <= i < l4 + PortOff(proto, x.isSrc) + 2)
  }

  /** A translation sets the address and the port and touches no other byte than the two check values. */
  lemma TranslatedFields(p: seq<u8>, ip: nat, oldPort: u16, x: Xlate)
    requires ip + 20 <= |p|
    ensures var q, l4, proto := Translated(p, ip, ip + 20, oldPort, x), ip + 20, p[ip + 9];
            && Addr(q, ip + AddrOff(x.isSrc)) == x.addr
            && (L4Fits(p, l4, proto) && x.port.Some? ==> W(q, l4 + PortOff(proto, x.isSrc)) == x.port.value)
            && forall i | 0 <= i < |p| && !Changed(p, ip, x, i) :: q[i] == p[i]
  {
    hide Replace, CsumReplace4, CsumReplace2;
  }

  lemma XlateIpSum(p: seq<u8>, ip: nat, x: Xlate)
    requires ip + 20 <= |p| && p[ip] > 0
    requires Verifies(Sum(p, ip, ip + 20))
    ensures Verifies(Sum(XlateIp(p, ip, x), ip, ip + 20))
  {
    hide Ones, Replace, Put, PutAddr;
    XlateIpKeepsWords(p, ip, x);
    var ao := ip + AddrOff(x.isSrc);
    var o, q := Addr(p, ao), PutAddr(p, ao, x.addr);
    var c := W(q, ip + 10);
    var r := XlateIp(p, ip, x);
    SumPutAddr(p, ip, ip + 20, ao, x.addr);
    SumPut(q, ip, ip + 20, ip + 10, CsumReplace4(c, o, x.addr));
    var rest := Sum(p, ip, ip + 20) - c - o.Hi() - o.Lo();
    WordsInSum(p, ip, ip + 10, ao);
    ReplaceKeepsVerifies(rest, c, o.Hi(), o.Lo(), x.addr.Hi(), x.addr.Lo());
    SumPut(r, ip, ip + 20, ip, 0);
  }

  /** Distinct header words add up to at most the header sum. */
  lemma WordsInSum(p: seq<u8>, ip: nat, o: nat, a: nat)
    requires ip + 20 <= |p| && ip <= o && (o - ip) % 2 == 0 && o + 2 <= a && a + 4 <= ip + 20 && (a - ip) % 2 == 0
    ensures W(p, o) + Addr(p, a).Hi() + Addr(p, a).Lo() <= Sum(p, ip, ip + 20)
  {
    hide Put, PutAddr;
    SumSplit(p, ip, a, ip + 20);
    SumPut(p, ip, a, o, 0);
    SumFieldBound(p, a, ip + 20, a);
  }

  /** The IPv4 header checksum stays valid. */
  lemma TranslateKeepsIp(p: seq<u8>, ip: nat, oldPort: u16, x: Xlate)
    requires ip + 20 <= |p| && p[ip] > 0 && IpVerifies(p, ip)
    ensures IpVerifies(Translated(p, ip, ip + 20, oldPort, x), ip)
  {
    XlateIpSum(p, ip, x);
    var q, r := XlateIp(p, ip, x), Translated(p, ip, ip + 20, oldPort, x);
    L4LeavesHeader(q, ip + 20, p[ip + 9], Addr(p, ip + AddrOff(x.isSrc)), oldPort, x);
    assert q[ip..ip + 20] == q[..ip + 20][ip..] == r[..ip + 20][ip..] == r[ip..ip + 20];
    SumMoved(q, ip, r, ip, 20);
  }

  lemma L4LeavesHeader(p: seq<u8>, l4: nat, proto: u8, old4: Ip4, oldPort: u16, x: Xlate)
    requires l4 <= |p|
    ensures XlateL4(p, l4, proto, old4, oldPort, x)[..l4] == p[..l4]
  {
    hide Replace, CsumReplace4, CsumReplace2, NewCheck;
  }

  function PortAfter(oldPort: u16, x: Xlate): u16 {
    if x.port.Some? then x.port.value else oldPort
  }

  /** The word total around a transport header when its check value and port are rewritten. */
  lemma XlateL4Sum(p: seq<u8>, l4: nat, end: nat, proto: u8, old4: Ip4, x: Xlate)
    requires l4 <= end <= |p| && L4Fits(p[..end], l4, proto) && !KeepsCheck(p, l4, proto, x)
    ensures var oldPort, c := W(p, l4 + PortOff(proto, x.isSrc)), W(p, l4 + CheckOff(proto));
            Sum(XlateL4(p, l4, proto, old4, oldPort, x), l4, end)
            == Sum(p, l4, end) - c + NewCheck(c, proto, old4, oldPort, x) - oldPort + PortAfter(oldPort, x)
  {
    hide NewCheck;
    var co, po := l4 + CheckOff(proto), l4 + PortOff(proto, x.isSrc);
    var oldPort, c := W(p, po), W(p, co);
    var c' := NewCheck(c, proto, old4, oldPort, x);
    SumPut(p, l4, end, co, c');
    if x.port.Some? {
      assert W(Put(p, co, c'), po) == oldPort;
      SumPut(Put(p, co, c'), l4, end, po, x.port.value);
    }
  }

  /** Check value and port words are distinct words of the segment. */
  lemma L4WordsInSum(p: seq<u8>, l4: nat, end: nat, proto: u8, isSrc: bool)
    requires l4 <= end <= |p| && L4Fits(p[..end], l4, proto)
    ensures W(p, l4 + CheckOff(proto)) + W(p, l4 + PortOff(proto, isSrc)) <= Sum(p, l4, end)
  {
    var co, po := l4 + CheckOff(proto), l4 + PortOff(proto, isSrc);
    SumPut(p, l4, end, co, 0);
    assert W(Put(p, co, 0), po) == W(p, po);
    SumPut(Put(p, co, 0), l4, end, po, 0);
  }

  /** ICMP: only the identifier is covered. The new total verifies unless all its words are zero. */
  lemma NewCheckVerifiesIcmpIff(rest: nat, c: u16, old4: Ip4, oldPort: u16, x: Xlate)
    requires x.port.Some? && Verifies(rest + c + oldPort)
    ensures Verifies(rest + NewCheck(c, IPPROTO_ICMP, old4, oldPort, x) + x.port.value)
       <==> rest + x.port.value > 0
  {
    hide Verifies, CsumReplace2, CsumReplace4;
    if rest + x.port.value > 0 {
      Replace2KeepsVerifies(rest, c, oldPort, x.port.value);
    } else {
      NothingToSeal(c, oldPort);
    }
  }

  lemma NothingToSeal(c: u16, o: u16)
    requires Verifies(c + o)
    ensures CsumReplace2(c, o, 0) == 0 && !Verifies(0)
  {
    hide *;
    VerifiesIff(c + o);
    VerifiesIff(0);
    Replace2Words(c, o, 0);
    ReplaceGivesZeroIff(c, o, 0, 0, 0);
  }

  /**
   * What an ICMP check value covers besides itself and the identifier: type, code and all from the sequence
   * number on.
   */
  function IcmpRest(p: seq<u8>, ip: nat): nat
    requires WellFormed(p, ip) && HoldsL4(p, ip) && p[ip + 9] == IPPROTO_ICMP
  {
    W(p, ip + 20) + Sum(p, ip + 26, ip + W(p, ip + 2))
  }

  lemma IcmpRestSum(p: seq<u8>, ip: nat)
    requires WellFormed(p, ip) && HoldsL4(p, ip) && p[ip + 9] == IPPROTO_ICMP
    ensures L4Total(p, ip) == IcmpRest(p, ip) + W(p, ip + 22) + W(p, ip + 24)
  {
    var l4, end := ip + 20, ip + W(p, ip + 2);
    assert Sum(p, l4, end) == W(p, l4) + Sum(p, l4 + 2, end);
    assert Sum(p, l4 + 2, end) == W(p, l4 + 2) + Sum(p, l4 + 4, end);
    assert Sum(p, l4 + 4, end) == W(p, l4 + 4) + Sum(p, l4 + 6, end);
  }

  /** Identifier 0 for an ICMP message that is otherwise zero: an all-zero total, which no check value can seal. */
  predicate Blanks(p: seq<u8>, ip: nat, x: Xlate)
    requires WellFormed(p, ip) && HoldsL4(p, ip)
  {
    p[ip + 9] == IPPROTO_ICMP && x.port == Some(0) && IcmpRest(p, ip) == 0
  }

  /** TCP and UDP: the address is covered through the pseudo-header, the port directly. */
  lemma NewCheckVerifiesPorts(rest: nat, c: u16, proto: u8, o: Ip4, oldPort: u16, x: Xlate)
    requires proto != IPPROTO_ICMP && rest > 0
    requires Verifies(rest + c + oldPort + o.Hi() + o.Lo())
    ensures Verifies(rest + NewCheck(c, proto, o, oldPort, x) + PortAfter(oldPort, x) + x.addr.Hi() + x.addr.Lo())
  {
    hide Ones, Verifies, CsumReplace2, Replace;
    var a := x.addr;
    var c1 := CsumReplace4(c, o, a);
    assert Verifies((rest + oldPort) + c + o.Hi() + o.Lo());
    ReplaceKeepsVerifies(rest + oldPort, c, o.Hi(), o.Lo(), a.Hi(), a.Lo());
    assert Verifies((rest + a.Hi() + a.Lo()) + c1 + oldPort);
    if x.port.Some? {
      Replace2KeepsVerifies(rest + a.Hi() + a.Lo(), c1, oldPort, x.port.value);
    }
  }

  /** Header fields that steer validity are not touched by a translation. */
  lemma TranslatedShape(p: seq<u8>, ip: nat, x: Xlate)
    requires WellFormed(p, ip)
    ensures var q := Translated(p, ip, ip + 20, OldPort(p, ip + 20, p[ip + 9], x.isSrc), x);
            && WellFormed(q, ip) && W(q, ip + 2) == W(p, ip + 2) && q[ip + 9] == p[ip + 9]
            && Addr(q, ip + AddrOff(x.isSrc)) == x.addr
            && Addr(q, ip + AddrOff(!x.isSrc)) == Addr(p, ip + AddrOff(!x.isSrc))
            && (HoldsL4(q, ip) <==> HoldsL4(p, ip))
  {
    hide Replace, CsumReplace4, CsumReplace2, NewCheck, Put, PutAddr, Translated;
    TranslatedFields(p, ip, OldPort(p, ip + 20, p[ip + 9], x.isSrc), x);
  }

  /** The segment sum after a translation that writes a check value. */
  lemma TranslatedSegment(p: seq<u8>, ip: nat, end: nat, x: Xlate)
    requires ip + 20 <= end <= |p|
    requires L4Fits(p[..end], ip + 20, p[ip + 9]) && !KeepsCheck(p, ip + 20, p[ip + 9], x)
    ensures var l4, proto := ip + 20, p[ip + 9];
            var oldPort, c := W(p, l4 + PortOff(proto, x.isSrc)), W(p, l4 + CheckOff(proto));
            Sum(Translated(p, ip, l4, oldPort, x), l4, end)
            == Sum(p, l4, end) - c + NewCheck(c, proto, Addr(p, ip + AddrOff(x.isSrc)), oldPort, x)
             - oldPort + PortAfter(oldPort, x)
  {
    hide NewCheck, XlateIp, XlateL4;
    var l4, proto, q := ip + 20, p[ip + 9], XlateIp(p, ip, x);
    XlateIpKeepsWords(p, ip, x);
    XlateIpKeepsTail(p, ip, x);
    assert q[l4..end] == q[l4..][..end - l4] == p[l4..][..end - l4] == p[l4..end];
    SumMoved(p, l4, q, l4, end - l4);
    XlateL4Sum(q, l4, end, proto, Addr(p, ip + AddrOff(x.isSrc)), x);
  }

  lemma XlateIpKeepsTail(p: seq<u8>, ip: nat, x: Xlate)
    requires ip + 20 <= |p|
    ensures XlateIp(p, ip, x)[ip + 20..] == p[ip + 20..]
  {
    hide Replace, CsumReplace4;
  }

  /** Transport totals before and after a translation that writes a check value, around what both share. */
  lemma TotalAfter(p: seq<u8>, ip: nat, x: Xlate) returns (rest: nat)
    requires WellFormed(p, ip) && HoldsL4(p, ip) && !KeepsCheck(p, ip + 20, p[ip + 9], x)
    ensures var q := Translated(p, ip, ip + 20, OldPort(p, ip + 20, p[ip + 9], x.isSrc), x);
            var proto, o := p[ip + 9], Addr(p, ip + AddrOff(x.isSrc));
            var c, port := W(p, ip + 20 + CheckOff(proto)), W(p, ip + 20 + PortOff(proto, x.isSrc));
            var c' := NewCheck(c, proto, o, port, x);
            && WellFormed(q, ip)
            && (proto == IPPROTO_ICMP ==>
                  L4Total(p, ip) == rest + c + port && L4Total(q, ip) == rest + c' + PortAfter(port, x))
            && (proto != IPPROTO_ICMP ==>
                  && rest > 0 && L4Total(p, ip) == rest + c + port + o.Hi() + o.Lo()
                  && L4Total(q, ip) == rest + c' + PortAfter(port, x) + x.addr.Hi() + x.addr.Lo())
  {
    hide NewCheck, Translated, Sum;
    var l4, proto, end := ip + 20, p[ip + 9], ip + W(p, ip + 2);
    TranslatedShape(p, ip, x);
    TranslatedSegment(p, ip, end, x);
    L4WordsInSum(p, l4, end, proto, x.isSrc);
    rest := Sum(p, l4, end) - W(p, l4 + CheckOff(proto)) - W(p, l4 + PortOff(proto, x.isSrc));
    if proto != IPPROTO_ICMP {
      var k := Addr(p, ip + AddrOff(!x.isSrc));
      rest := rest + k.Hi() + k.Lo() + proto + (end - l4);
    }
  }

  /** The transport checksum stays valid whenever it is rewritten, unless the rewrite blanks an ICMP message. */
  lemma TranslateKeepsL4(p: seq<u8>, ip: nat, x: Xlate)
    requires WellFormed(p, ip) && HoldsL4(p, ip) && Verifies(L4Total(p, ip))
    requires !KeepsCheck(p, ip + 20, p[ip + 9], x)
    ensures var q := Translated(p, ip, ip + 20, OldPort(p, ip + 20, p[ip + 9], x.isSrc), x);
            WellFormed(q, ip) && (Verifies(L4Total(q, ip)) <==> !Blanks(p, ip, x))
  {
    hide *;
    CheckedWords(p, ip, x);
    var rest := TotalAfter(p, ip, x);
    var l4, proto := ip + 20, p[ip + 9];
    var o, c := Addr(p, ip + AddrOff(x.isSrc)), W(p, l4 + CheckOff(proto));
    var port := W(p, l4 + PortOff(proto, x.isSrc));
    if proto == IPPROTO_ICMP {
      NewCheckVerifiesIcmpIff(rest, c, o, port, x);
      BlanksMeans(p, ip, x, rest);
    } else {
      NewCheckVerifiesPorts(rest, c, proto, o, port, x);
      NeverBlanks(p, ip, x);
    }
  }

  /** Check value, port and addresses lie inside the packet; ICMP is translated only with an identifier. */
  lemma CheckedWords(p: seq<u8>, ip: nat, x: Xlate)
    requires WellFormed(p, ip) && HoldsL4(p, ip) && !KeepsCheck(p, ip + 20, p[ip + 9], x)
    ensures ip + 20 + CheckOff(p[ip + 9]) + 2 <= |p| && ip + 20 + PortOff(p[ip + 9], x.isSrc) + 2 <= |p|
    ensures ip + AddrOff(x.isSrc) + 4 <= |p|
    ensures p[ip + 9] == IPPROTO_ICMP ==> x.port.Some?
  {
  }

  lemma BlanksMeans(p: seq<u8>, ip: nat, x: Xlate, rest: nat)
    requires WellFormed(p, ip) && HoldsL4(p, ip) && p[ip + 9] == IPPROTO_ICMP && x.port.Some?
    requires L4Total(p, ip) == rest + W(p, ip + 20 + CheckOff(p[ip + 9])) + W(p, ip + 20 + PortOff(p[ip + 9], x.isSrc))
    ensures Blanks(p, ip, x) <==> rest + x.port.value == 0
    ensures forall oldPort: u16 :: PortAfter(oldPort, x) == x.port.value
  {
    IcmpRestSum(p, ip);
    hide IcmpRest, L4Total;
  }

  lemma NeverBlanks(p: seq<u8>, ip: nat, x: Xlate)
    requires WellFormed(p, ip) && HoldsL4(p, ip) && p[ip + 9] != IPPROTO_ICMP
    ensures !Blanks(p, ip, x)
  {
  }

  /** Transport checksum as a receiver judges it: UDP may carry none. */
  predicate L4Ok(p: seq<u8>, ip: nat)
    requires WellFormed(p, ip) && HoldsL4(p, ip)
  {
    || (p[ip + 9] == IPPROTO_UDP && W(p, ip + 26) == 0)
    || Verifies(L4Total(p, ip))
  }

  /** Without a check value to write, ICMP is untouched and UDP keeps sending no checksum. */
  lemma TranslateKeepsAbsent(p: seq<u8>, ip: nat, x: Xlate)
    requires WellFormed(p, ip) && HoldsL4(p, ip) && KeepsCheck(p, ip + 20, p[ip + 9], x)
    ensures var q := Translated(p, ip, ip + 20, OldPort(p, ip + 20, p[ip + 9], x.isSrc), x);
            && WellFormed(q, ip) && q[ip + 9] == p[ip + 9]
            && (p[ip + 9] == IPPROTO_UDP ==> W(q, ip + 26) == 0)
            && (p[ip + 9] == IPPROTO_ICMP ==> L4Total(q, ip) == L4Total(p, ip))
  {
    hide NewCheck, XlateIp;
    TranslatedShape(p, ip, x);
    XlateIpKeepsWords(p, ip, x);
    XlateIpKeepsTail(p, ip, x);
    var l4, end, q := ip + 20, ip + W(p, ip + 2), XlateIp(p, ip, x);
    if p[ip + 9] == IPPROTO_ICMP {
      assert q[l4..end] == q[l4..][..end - l4] == p[l4..][..end - l4] == p[l4..end];
      SumMoved(p, l4, q, l4, end - l4);
    }
  }

  /** Every translation keeps both checksums acceptable, unless it blanks an ICMP message. */
  lemma TranslateKeepsChecksums(p: seq<u8>, ip: nat, x: Xlate)
    requires WellFormed(p, ip) && HoldsL4(p, ip) && IpVerifies(p, ip) && L4Ok(p, ip)
    ensures var q := Translated(p, ip, ip + 20, OldPort(p, ip + 20, p[ip + 9], x.isSrc), x);
            WellFormed(q, ip) && HoldsL4(q, ip) && IpVerifies(q, ip) && (L4Ok(q, ip) <==> !Blanks(p, ip, x))
  {
    hide Verifies, NewCheck, Translated, L4Total, IcmpRest;
    TranslatedShape(p, ip, x);
    TranslateKeepsIp(p, ip, OldPort(p, ip + 20, p[ip + 9], x.isSrc), x);
    if KeepsCheck(p, ip + 20, p[ip + 9], x) {
      TranslateKeepsAbsent(p, ip, x);
    } else {
      TranslateKeepsL4(p, ip, x);
    }
  }

  // ---------------------------------------------------------------- per rewriter

  predicate Valid(p: seq<u8>, ip: nat) {
    WellFormed(p, ip) && HoldsL4(p, ip) && IpVerifies(p, ip) && L4Ok(p, ip)
  }

  /** A conntrack entry never breaks a checksum. */
  lemma CtApplyKeepsChecksums(p: seq<u8>, ip: nat, e: CtEntry)
    requires Valid(p, ip)
    ensures Valid(CtApplied(p, ip, e), ip)
  {
    hide Translated, L4Ok, Has;
    if Has(e.flags, CT_REWRITE_SRC | CT_REWRITE_DST) {
      TranslateKeepsChecksums(p, ip, EntryXlate(e));
    }
  }

  /**
   * Network SNAT keeps acceptable checksums except when it gives identifier 0 to an otherwise all-zero ICMP
   * message.
   */
  lemma NatKeepsChecksumsIff(p: seq<u8>, ip: nat, proto: u8, sport: u16, dport: u16, natIp: Ip4, natPort: u16)
    requires Valid(p, ip) && L4Ports(p, ip) == Some((proto, sport, dport))
    ensures Valid(NatApplied(p, ip, sport, natIp, natPort), ip)
       <==> !(proto == IPPROTO_ICMP && natPort == 0 && IcmpRest(p, ip) == 0)
  {
    hide Translated, L4Ok, IcmpRest;
    TranslateKeepsChecksums(p, ip, Xlate(true, natIp, Some(natPort)));
  }

  /** No translation changes what an ICMP message holds besides check value and identifier. */
  lemma TranslateKeepsIcmpRest(p: seq<u8>, ip: nat, oldPort: u16, x: Xlate)
    requires WellFormed(p, ip) && HoldsL4(p, ip) && p[ip + 9] == IPPROTO_ICMP
    ensures var q := Translated(p, ip, ip + 20, oldPort, x);
            WellFormed(q, ip) && HoldsL4(q, ip) && q[ip + 9] == p[ip + 9] && IcmpRest(q, ip) == IcmpRest(p, ip)
  {
    hide Translated, Sum;
    TranslatedFields(p, ip, oldPort, x);
    var q, end := Translated(p, ip, ip + 20, oldPort, x), ip + W(p, ip + 2);
    assert forall i | ip + 26 <= i < |p| :: !Changed(p, ip, x, i);
    assert !Changed(p, ip, x, ip) && !Changed(p, ip, x, ip + 9);
    assert !Changed(p, ip, x, ip + 2) && !Changed(p, ip, x, ip + 3);
    assert !Changed(p, ip, x, ip + 20) && !Changed(p, ip, x, ip + 21);
    assert q[ip + 26..end] == p[ip + 26..end];
    SumMoved(q, ip + 26, p, ip + 26, end - ip - 26);
  }

  /** A packet whose transport part cannot be blanked. */
  predicate NotBlank(p: seq<u8>, ip: nat) {
    WellFormed(p, ip) && HoldsL4(p, ip) && (p[ip + 9] == IPPROTO_ICMP ==> IcmpRest(p, ip) > 0)
  }

  lemma CtApplyKeepsNotBlank(p: seq<u8>, ip: nat, e: CtEntry)
    requires NotBlank(p, ip)
    ensures NotBlank(CtApplied(p, ip, e), ip)
  {
    hide Translated, IcmpRest, Has;
    var x := EntryXlate(e);
    TranslatedShape(p, ip, x);
    if p[ip + 9] == IPPROTO_ICMP {
      TranslateKeepsIcmpRest(p, ip, OldPort(p, ip + 20, p[ip + 9], x.isSrc), x);
    }
  }

  lemma VipKeepsNotBlank(p: seq<u8>, ip: nat, vips: map<VipKey, Ip4>, vni: u32, isSrc: bool)
    requires NotBlank(p, ip)
    ensures NotBlank(VipApplied(p, ip, vips, vni, isSrc), ip)
  {
    hide Translated, IcmpRest;
    var k := VipKey(vni, Addr(p, ip + AddrOff(isSrc)));
    if k in vips {
      var x := Xlate(isSrc, vips[k], None);
      TranslatedShape(p, ip, x);
      OldPortUnused(p, ip, OldPort(p, ip + 20, p[ip + 9], isSrc), x);
      if p[ip + 9] == IPPROTO_ICMP {
        TranslateKeepsIcmpRest(p, ip, 0, x);
      }
    }
  }

  /** A VIP rewrite in either direction never breaks a checksum. */
  lemma VipKeepsChecksums(p: seq<u8>, ip: nat, vips: map<VipKey, Ip4>, vni: u32, isSrc: bool)
    requires Valid(p, ip)
    ensures Valid(VipApplied(p, ip, vips, vni, isSrc), ip)
  {
    hide L4Ok;
    var k := VipKey(vni, Addr(p, ip + AddrOff(isSrc)));
    if k in vips {
      var x := Xlate(isSrc, vips[k], None);
      TranslateKeepsChecksums(p, ip, x);
      OldPortUnused(p, ip, OldPort(p, ip + 20, p[ip + 9], isSrc), x);
    }
  }

  lemma OldPortUnused(p: seq<u8>, ip: nat, oldPort: u16, x: Xlate)
    requires ip + 20 <= |p| && x.port.None?
    ensures Translated(p, ip, ip + 20, oldPort, x) == Translated(p, ip, ip + 20, 0, x)
  {
    hide CsumReplace2, CsumReplace4, Put, PutAddr;
  }

  const BROADCAST: Ip4 := Ip4(255, 255, 255, 255)

  /** Writing port 0 over port 0 leaves the check value alone, unless that is 0xffff at that point. */
  predicate ZeroPortHarmless(c: u16, proto: u8, old4: Ip4, new4: Ip4) {
    c == 0xffff ==> proto != IPPROTO_ICMP && !(old4 == BROADCAST && new4 == ANY_IP4)
  }

  lemma ReplaceZero(c: u16)
    ensures CsumReplace2(c, 0, 0) == if c == 0xffff then 0 else c
  {
    Replace2Words(c, 0, 0);
    OnesOfWord(Not(c));
    OnesOfShifted(Not(c) + 3 * 0xffff - 0xffff, Not(c), 2);
  }

  /** An address update ends in 0xffff only from 0xffff, all-ones words out and all-zero words in. */
  lemma ReplaceGivesAllOnesIff(c: u16, a: Ip4, b: Ip4)
    ensures CsumReplace4(c, a, b) == 0xffff <==> c == 0xffff && a == BROADCAST && b == ANY_IP4
  {
    hide Replace, Ip4.Hi, Ip4.Lo;
    WordsAreBytes(a);
    WordsAreBytes(b);
    AllOnesFrom(c, a.Hi(), a.Lo(), b.Hi(), b.Lo());
  }

  lemma AllOnesFrom(c: u16, o1: u16, o2: u16, n1: u16, n2: u16)
    ensures Replace(c, o1, o2, n1, n2) == 0xffff <==> c == o1 == o2 == 0xffff && n1 == n2 == 0
  {
    hide Ones;
    var sum: nat := Not(c) + Not(o1) + Not(o2) + n1 + n2;
    assert Ones(sum) == 0 <==> sum == 0;
  }

  lemma WordsAreBytes(a: Ip4)
    ensures a.Hi() == 0xffff && a.Lo() == 0xffff <==> a == BROADCAST
    ensures a.Hi() == 0 && a.Lo() == 0 <==> a == ANY_IP4
  {
  }

  lemma PutSame(p: seq<u8>, o: nat)
    requires o + 2 <= |p|
    ensures Put(p, o, W(p, o)) == p
  {
  }

  lemma PutInjective(p: seq<u8>, o: nat, v: u16, w: u16)
    requires o + 2 <= |p|
    ensures Put(p, o, v) == Put(p, o, w) <==> v == w
  {
    assert W(Put(p, o, v), o) == v && W(Put(p, o, w), o) == w;
  }

  lemma PutKeepsWord(p: seq<u8>, o: nat, v: u16, k: nat)
    requires o + 2 <= |p| && k + 2 <= |p| && (k + 2 <= o || o + 2 <= k)
    ensures W(Put(p, o, v), k) == W(p, k)
  {
  }

  /** Transport rewrite without a port against the rewrite of port 0 by port 0. */
  lemma ZeroPortL4Iff(q: seq<u8>, l4: nat, proto: u8, old4: Ip4, new4: Ip4)
    requires L4Fits(q, l4, proto) && W(q, l4 + PortOff(proto, true)) == 0
    ensures XlateL4(q, l4, proto, old4, 0, Xlate(true, new4, None))
            == XlateL4(q, l4, proto, old4, 0, Xlate(true, new4, Some(0)))
       <==> ZeroPortHarmless(W(q, l4 + CheckOff(proto)), proto, old4, new4)
  {
    hide Put, CsumReplace2, CsumReplace4;
    var co, po := l4 + CheckOff(proto), l4 + PortOff(proto, true);
    var c := W(q, co);
    var v := CsumReplace4(c, old4, new4);
    var w := CsumReplace2(if proto == IPPROTO_ICMP then c else v, 0, 0);
    ReplaceZero(c);
    ReplaceZero(v);
    ReplaceGivesAllOnesIff(c, old4, new4);
    PutKeepsWord(q, co, w, po);
    PutSame(Put(q, co, w), po);
    PutSame(q, po);
    PutSame(q, co);
    PutInjective(q, co, v, w);
    PutInjective(q, co, c, w);
  }

  /**
   * The conntrack fast path is the NAT slow path, byte for byte, exactly when the entry carries a port
   * (0 in an entry means "leave the port alone", while the slow path writes it), or there is no whole
   * transport header to write to, or the packet's own port is 0 and rewriting it harmless.
   */
  lemma FastPathIsSlowPathIff(p: seq<u8>, ip: nat, e: CtEntry, proto: u8, sport: u16, dport: u16)
    requires ip + 20 <= |p| && p[ip] as int % 16 == 5
    requires L4Ports(p, ip) == Some((proto, sport, dport)) && Has(e.flags, CT_REWRITE_SRC)
    ensures CtApplied(p, ip, e) == NatApplied(p, ip, sport, e.xlateIp, e.xlatePort)
       <==> || e.xlatePort != 0
            || !L4Fits(p, ip + 20, proto)
            || (sport == 0 && ZeroPortHarmless(W(p, ip + 20 + CheckOff(proto)), proto, Addr(p, ip + 12), e.xlateIp))
  {
    hide CsumReplace2, CsumReplace4, Put, PutAddr, XlateIp;
    SrcMask(e.flags);
    var x, y := EntryXlate(e), Xlate(true, e.xlateIp, Some(0));
    SameAddressSameIp(p, ip, x, y);
    if e.xlatePort == 0 && L4Fits(p, ip + 20, proto) {
      OldPortUnused(p, ip, OldPort(p, ip + 20, proto, true), x);
      if sport != 0 {
        XlateFieldAt(p, ip, sport, x, proto);
        XlateFieldAt(p, ip, sport, y, proto);
        OldPortUnused(p, ip, sport, x);
      } else {
        var q := XlateIp(p, ip, x);
        XlateIpKeepsWords(p, ip, x);
        ZeroPortL4Iff(q, ip + 20, proto, Addr(p, ip + 12), e.xlateIp);
      }
    }
  }

  lemma SameAddressSameIp(p: seq<u8>, ip: nat, x: Xlate, y: Xlate)
    requires ip + 20 <= |p| && x.isSrc == y.isSrc && x.addr == y.addr
    ensures XlateIp(p, ip, x) == XlateIp(p, ip, y)
  {
    hide CsumReplace4, Put, PutAddr;
  }

  /** A whole TCP packet whose port-0 entry makes the paths differ, and its first 24 bytes, on which they agree. */
  lemma PortZeroDependsOnHeader(e: CtEntry)
    requires Has(e.flags, CT_REWRITE_SRC) && e.xlatePort == 0
    ensures var p := seq(40, i => if i == 0 then 0x45 else if i == 9 then 6 else if i == 21 then 80 else 0);
            && CtApplied(p, 0, e) != NatApplied(p, 0, 80, e.xlateIp, 0)
            && CtApplied(p[..24], 0, e) == NatApplied(p[..24], 0, 80, e.xlateIp, 0)
  {
    var p: seq<u8> := seq(40, i => if i == 0 then 0x45 else if i == 9 then 6 else if i == 21 then 80 else 0);
    assert L4Ports(p, 0) == Some((6, 80, 0)) && L4Ports(p[..24], 0) == Some((6, 80, 0));
    hide CtApplied, NatApplied, Has;
    FastPathIsSlowPathIff(p, 0, e, 6, 80, 0);
    FastPathIsSlowPathIff(p[..24], 0, e, 6, 80, 0);
  }

  /** The source port (identifier) of a source translation: the new one if given, else the old one. */
  lemma XlateFieldAt(p: seq<u8>, ip: nat, oldPort: u16, x: Xlate, proto: u8)
    requires ip + 20 <= |p| && proto == p[ip + 9] && L4Fits(p, ip + 20, proto)
    ensures var po := ip + 20 + PortOff(proto, x.isSrc);
            W(Translated(p, ip, ip + 20, oldPort, x), po) == if x.port.Some? then x.port.value else W(p, po)
  {
    hide Translated;
    TranslatedFields(p, ip, oldPort, x);
  }

  lemma SrcMask(flags: bv8)
    ensures Has(flags, CT_REWRITE_SRC) || Has(flags, CT_REWRITE_DST) ==> Has(flags, CT_REWRITE_SRC | CT_REWRITE_DST)
  {
  }
}
