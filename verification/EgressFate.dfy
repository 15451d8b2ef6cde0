/**
 * What becomes of every packet that enters the IPv4 egress pipeline: dropped, passed up or forwarded, between
 * which addresses, and what the maps remember of it. Nothing here assumes which stages apply.
 */
module EgressFate {
  import opened Types
  import opened Bytes
  import opened Checksum
  import opened Maps
  import opened Packet
  import opened Rewrite
  import opened RewriteProofs
  import opened Tracker
  import opened NatTable
  import opened NatGateway
  import opened NatRoundTrip
  import Vips

  // ---------------------------------------------------------------- verdicts

  /** An untracked flow that the firewall refuses. */
  predicate Firewalled(s: State, p: seq<u8>, ip: nat, env: Env) {
    var k := KeyOf(p, ip, env.vni);
    k.Some? && k.value !in s.ct && env.fwDrops
  }

  /** The destination the route is looked up for: the packet's own, or the guest behind a VIP. */
  function RouteDst(p: seq<u8>, ip: nat, env: Env): Ip4
    requires ip + 20 <= |p|
  {
    Vips.Mapped(env.vips, env.vni, Addr(p, ip + 16))
  }

  /** The source address before network NAT: the flow's translation if there is one, then the VIP if there is one. */
  function SrcBeforeNat(s: State, p: seq<u8>, ip: nat, env: Env): Ip4
    requires ip + 20 <= |p|
  {
    var k := KeyOf(p, ip, env.vni);
    Vips.Mapped(env.vips, env.vni,
           if k.Some? && k.value in s.ct && Has(s.ct[k.value].flags, CT_REWRITE_SRC) && p[ip] as int % 16 == 5
           then s.ct[k.value].xlateIp else Addr(p, ip + 12))
  }

  /** The guest of that address has NAT, the destination is external and the packet has ports. */
  predicate IsNatted(s: State, p: seq<u8>, ip: nat, env: Env)
    requires ip + 20 <= |p|
  {
    var d, nk := RouteDst(p, ip, env), NatKey(env.vni, SrcBeforeNat(s, p, ip, env));
    && d in env.routes && env.routes[d] && L4Ports(p, ip).Some?
    && nk in s.nats && Range(s.nats[nk]) != 0
  }

  /** A refused packet is dropped before anything is written: neither a map nor a byte changes. */
  lemma FirewalledIsUntouched(s: State, p: seq<u8>, ip: nat, env: Env)
    requires ip + 20 <= |p|
    ensures Firewalled(s, p, ip, env) ==> Egress(s, p, ip, env) == (s, p, Drop)
  {
    hide KeyOf, CtApplied, VipApplied, SnatPacket, EgressDefault;
  }

  /** Header fields that steer the pipeline. */
  predicate SameShape(p: seq<u8>, q: seq<u8>, ip: nat)
    requires ip + 20 <= |p|
  {
    |q| == |p| && q[ip] == p[ip] && q[ip + 9] == p[ip + 9] && (L4Ports(q, ip).Some? <==> L4Ports(p, ip).Some?)
  }

  /** The conntrack and firewall stage. */
  lemma TrackBytes(s: State, p: seq<u8>, ip: nat, env: Env) returns (s1: State, q: seq<u8>)
    requires ip + 20 <= |p| && Ihl(p, ip) >= 20 && !Firewalled(s, p, ip, env)
    ensures EgressTrack(s, p, ip, env) == (s1, Some(q)) && SameShape(p, q, ip)
    ensures Vips.Mapped(env.vips, env.vni, Addr(q, ip + 12)) == SrcBeforeNat(s, p, ip, env)
    ensures Addr(q, ip + 16) == Addr(p, ip + 16)
    ensures s1.nats == s.nats && s1.ct.Keys == s.ct.Keys
    ensures forall j | j in s.ct && KeyOf(p, ip, env.vni) != Some(j) :: s1.ct[j] == s.ct[j]
    ensures forall j | j in s.ct && KeyOf(p, ip, env.vni) == Some(j) ::
              SameXlate(s1.ct[j], s.ct[j]) && s1.ct[j].lastSeen == env.now
  {
    var k := KeyOf(p, ip, env.vni);
    q := p;
    if k.Some? && k.value in s.ct && Has(s.ct[k.value].flags, CT_REWRITE_SRC) {
      q := CtApplied(p, ip, s.ct[k.value]);
      CtAppliedAddrs(p, ip, s.ct[k.value]);
    }
    s1 := EgressTrack(s, p, ip, env).0;
    hide CtApplied, Has, L4Ports, Vips.Mapped;
  }

  lemma CtAppliedAddrs(p: seq<u8>, ip: nat, e: CtEntry)
    requires ip + 20 <= |p| && Has(e.flags, CT_REWRITE_SRC)
    ensures var q := CtApplied(p, ip, e);
            && SameShape(p, q, ip) && Addr(q, ip + 16) == Addr(p, ip + 16)
            && Addr(q, ip + 12) == if p[ip] as int % 16 == 5 then e.xlateIp else Addr(p, ip + 12)
  {
    SrcMask(e.flags);
    hide Translated, Has;
    if p[ip] as int % 16 == 5 {
      TranslatedFields(p, ip, OldPort(p, ip + 20, p[ip + 9], true), EntryXlate(e));
    }
  }

  lemma NatAppliedAddrs(p: seq<u8>, ip: nat, oldPort: u16, natIp: Ip4, port: u16)
    requires ip + 20 <= |p| && Ihl(p, ip) >= 20
    ensures var q := NatApplied(p, ip, oldPort, natIp, port);
            |q| == |p| && Addr(q, ip + 12) == natIp && Addr(q, ip + 16) == Addr(p, ip + 16)
  {
    hide Replace, CsumReplace4, CsumReplace2;
  }

  /** The VIP stages. */
  lemma VipStages(q: seq<u8>, ip: nat, env: Env) returns (p1: seq<u8>)
    requires ip + 20 <= |q| && Ihl(q, ip) >= 20
    ensures p1 == VipApplied(VipApplied(q, ip, env.vips, env.vni, true), ip, env.vips, env.vni, false)
    ensures SameShape(q, p1, ip)
    ensures Addr(p1, ip + 12) == Vips.Mapped(env.vips, env.vni, Addr(q, ip + 12))
    ensures Addr(p1, ip + 16) == Vips.Mapped(env.vips, env.vni, Addr(q, ip + 16))
  {
    Vips.VipFields(q, ip, env.vips, env.vni, true);
    var p0 := VipApplied(q, ip, env.vips, env.vni, true);
    Vips.VipFields(p0, ip, env.vips, env.vni, false);
    p1 := VipApplied(p0, ip, env.vips, env.vni, false);
    hide VipApplied, L4Ports, Vips.Mapped;
  }

  /** Network NAT on a routed packet. */
  lemma SnatStage(s1: State, p1: seq<u8>, ip: nat, env: Env, ext: bool)
    requires ip + 20 <= |p1| && Ihl(p1, ip) >= 20
    ensures var (s2, p2, done) := SnatPacket(s1, p1, ip, env.vni, ext, env.now);
            var nk := NatKey(env.vni, Addr(p1, ip + 12));
            && (done <==> ext && L4Ports(p1, ip).Some? && nk in s1.nats && Range(s1.nats[nk]) != 0)
            && (!done ==> s2 == s1 && p2 == p1)
            && (done ==>
                  |p2| == |p1| && Addr(p2, ip + 12) == s1.nats[nk].natIp && Addr(p2, ip + 16) == Addr(p1, ip + 16))
  {
    var k := KeyOf(p1, ip, env.vni);
    if k.Some? && ext && Snat(s1, k.value, false, env.now).1.Some? {
      NatAppliedAddrs(p1, ip, k.value.sport, s1.nats[NatKey(env.vni, k.value.src)].natIp,
                      Snat(s1, k.value, false, env.now).1.value);
    }
    hide NatApplied, Alloc, Tracked, Range;
  }

  /** The pipeline as the composition of its stages, for packets the firewall lets through. */
  lemma Stages(s: State, p: seq<u8>, ip: nat, env: Env, s1: State, q: seq<u8>, p1: seq<u8>)
    requires ip + 20 <= |p| == |p1| && EgressTrack(s, p, ip, env) == (s1, Some(q))
    requires p1 == VipApplied(VipApplied(q, ip, env.vips, env.vni, true), ip, env.vips, env.vni, false)
    ensures Addr(p1, ip + 16) !in env.routes ==> Egress(s, p, ip, env) == (s1, p1, Pass)
    ensures Addr(p1, ip + 16) in env.routes ==>
              var (s2, p2, _) := SnatPacket(s1, p1, ip, env.vni, env.routes[Addr(p1, ip + 16)], env.now);
              Egress(s, p, ip, env) == (EgressDefault(s2, p2, ip, env), p2, if env.meterPasses then Forward else Drop)
  {
    hide EgressTrack, VipApplied, SnatPacket, EgressDefault;
  }

  /**
   * The fate of every packet with a header of at least 20 bytes. It is dropped exactly when the firewall
   * refuses its untracked flow or the meter refuses it on its route; passed up exactly when it has no route;
   * forwarded otherwise. Unless the firewall refused it, it goes to the guest behind the VIP or to its own
   * destination, from the public address of the NAT, the VIP, or its own.
   */
  lemma EgressFateIff(s: State, p: seq<u8>, ip: nat, env: Env)
    requires ip + 20 <= |p| && Ihl(p, ip) >= 20
    ensures var (_, q, v) := Egress(s, p, ip, env);
            var refused, d := Firewalled(s, p, ip, env), RouteDst(p, ip, env);
            && (v == Drop <==> refused || (d in env.routes && !env.meterPasses))
            && (v == Pass <==> !refused && d !in env.routes)
            && (v == Forward <==> !refused && d in env.routes && env.meterPasses)
            && |q| == |p|
            && (!refused ==>
                  && Addr(q, ip + 16) == d
                  && Addr(q, ip + 12) == if IsNatted(s, p, ip, env)
                                         then s.nats[NatKey(env.vni, SrcBeforeNat(s, p, ip, env))].natIp
                                         else SrcBeforeNat(s, p, ip, env))
  {
    hide *;
    FirewalledIsUntouched(s, p, ip, env);
    if !Firewalled(s, p, ip, env) {
      var s1, q := TrackBytes(s, p, ip, env);
      ShapeMeans(p, q, ip);
      var p1 := VipStages(q, ip, env);
      ShapeMeans(q, p1, ip);
      Stages(s, p, ip, env, s1, q, p1);
      RouteDstMeans(p, ip, env);
      IsNattedMeans(s, p, ip, env);
      if Addr(p1, ip + 16) in env.routes { SnatStage(s1, p1, ip, env, env.routes[Addr(p1, ip + 16)]); }
    }
  }

  lemma ShapeMeans(p: seq<u8>, q: seq<u8>, ip: nat)
    requires ip + 20 <= |p| && SameShape(p, q, ip)
    ensures |q| == |p| && Ihl(q, ip) == Ihl(p, ip) && (L4Ports(q, ip).Some? <==> L4Ports(p, ip).Some?)
    ensures KeyOf(p, ip, 0).Some? <==> L4Ports(p, ip).Some?
  {
    hide L4Ports;
  }

  lemma RouteDstMeans(p: seq<u8>, ip: nat, env: Env)
    requires ip + 20 <= |p|
    ensures RouteDst(p, ip, env) == Vips.Mapped(env.vips, env.vni, Addr(p, ip + 16))
  {
  }

  lemma IsNattedMeans(s: State, p: seq<u8>, ip: nat, env: Env)
    requires ip + 20 <= |p|
    ensures var d, nk := RouteDst(p, ip, env), NatKey(env.vni, SrcBeforeNat(s, p, ip, env));
            IsNatted(s, p, ip, env)
            <==> d in env.routes && env.routes[d] && L4Ports(p, ip).Some? && nk in s.nats && Range(s.nats[nk]) != 0
  {
  }

  // ---------------------------------------------------------------- packets that stay inside

  /** Without an external route network NAT changes no map and no byte. */
  lemma InternalIsNotNatted(s: State, p: seq<u8>, ip: nat, vni: u32, now: u64)
    ensures SnatPacket(s, p, ip, vni, false, now) == (s, p, false)
  {
  }

  /** Entries written by network NAT. */
  predicate NewNatEntry(s: State, s': State, j: CtKey) { Tracked(s'.ct, j) && !Tracked(s.ct, j) }

  /**
   * A packet that is not NATed, internal ones above all, leaves no new NAT entry, keeps all others, and what
   * leaves is the packet with its flow's translation and the VIPs, no more.
   */
  lemma NotNattedKeepsNats(s: State, p: seq<u8>, ip: nat, env: Env, j: CtKey)
    requires ip + 20 <= |p| && Ihl(p, ip) >= 20 && !IsNatted(s, p, ip, env)
    ensures var s' := Egress(s, p, ip, env).0;
            && s'.nats == s.nats && !NewNatEntry(s, s', j)
            && (j in s.ct ==> j in s'.ct && SameXlate(s'.ct[j], s.ct[j]))
  {
    hide *;
    FirewalledIsUntouched(s, p, ip, env);
    if !Firewalled(s, p, ip, env) {
      var s1, q := TrackBytes(s, p, ip, env);
      ShapeMeans(p, q, ip);
      var p1 := VipStages(q, ip, env);
      ShapeMeans(q, p1, ip);
      Stages(s, p, ip, env, s1, q, p1);
      RouteDstMeans(p, ip, env);
      IsNattedMeans(s, p, ip, env);
      if Addr(p1, ip + 16) in env.routes {
        SnatStage(s1, p1, ip, env, env.routes[Addr(p1, ip + 16)]);
        DefaultAddsNoNat(s1, p1, ip, env, j);
      }
      TouchedAlike(s, s1, j);
    } else {
      SameIsAlike(s, j);
    }
  }

  lemma SameIsAlike(s: State, j: CtKey)
    ensures !NewNatEntry(s, s, j) && (j in s.ct ==> SameXlate(s.ct[j], s.ct[j]))
  {
  }

  lemma TouchedAlike(s: State, s1: State, j: CtKey)
    requires s1.ct.Keys == s.ct.Keys && (j in s.ct ==> s1.ct[j] == s.ct[j] || SameXlate(s1.ct[j], s.ct[j]))
    ensures !NewNatEntry(s, s1, j) && (j in s.ct ==> SameXlate(s1.ct[j], s.ct[j]))
    ensures Tracked(s1.ct, j) <==> Tracked(s.ct, j)
    ensures forall s2: State | !NewNatEntry(s1, s2, j) :: !NewNatEntry(s, s2, j)
  {
    hide Has;
  }

  lemma DefaultAddsNoNat(s: State, q: seq<u8>, ip: nat, env: Env, j: CtKey)
    ensures var s' := EgressDefault(s, q, ip, env);
            s'.nats == s.nats && !NewNatEntry(s, s', j) && (j in s.ct ==> j in s'.ct && s'.ct[j] == s.ct[j])
  {
    assert !Has(CT_F_DEFAULT, CT_F_SRC_NAT);
    hide Has, KeyOf, TcpFlags, TcpAdvance;
  }

  // ---------------------------------------------------------------- what the maps remember

  /** The flow of a packet seen before is refreshed. */
  lemma SeenIsRefreshed(s: State, p: seq<u8>, ip: nat, env: Env, k: CtKey)
    requires ip + 20 <= |p| && Ihl(p, ip) >= 20 && KeyOf(p, ip, env.vni) == Some(k) && k in s.ct
    ensures var s' := Egress(s, p, ip, env).0; k in s'.ct && s'.ct[k].lastSeen == env.now
  {
    hide *;
    NotFirewalled(s, p, ip, env, k);
    var s1, q := TrackBytes(s, p, ip, env);
    ShapeMeans(p, q, ip);
    var p1 := VipStages(q, ip, env);
    ShapeMeans(q, p1, ip);
    Stages(s, p, ip, env, s1, q, p1);
    if Addr(p1, ip + 16) in env.routes {
      SnatKeepsFresh(s1, p1, ip, env, env.routes[Addr(p1, ip + 16)], k);
      var (s2, p2, _) := SnatPacket(s1, p1, ip, env.vni, env.routes[Addr(p1, ip + 16)], env.now);
      DefaultAddsNoNat(s2, p2, ip, env, k);
    }
  }

  lemma NotFirewalled(s: State, p: seq<u8>, ip: nat, env: Env, k: CtKey)
    requires KeyOf(p, ip, env.vni) == Some(k) && k in s.ct
    ensures !Firewalled(s, p, ip, env)
  {
    hide KeyOf;
  }

  lemma SnatKeepsFresh(s: State, p: seq<u8>, ip: nat, env: Env, ext: bool, k: CtKey)
    requires k in s.ct && s.ct[k].lastSeen == env.now
    ensures var s' := SnatPacket(s, p, ip, env.vni, ext, env.now).0; k in s'.ct && s'.ct[k].lastSeen == env.now
  {
    hide NatApplied, KeyOf, StartSlot, Candidate, FirstFree, Range, Has;
  }

  /** Whatever is forwarded or metered is tracked under the key it leaves with. */
  lemma RoutedIsTracked(s: State, p: seq<u8>, ip: nat, env: Env)
    requires ip + 20 <= |p| && Ihl(p, ip) >= 20 && !Firewalled(s, p, ip, env) && RouteDst(p, ip, env) in env.routes
    ensures var (s', q, _) := Egress(s, p, ip, env);
            KeyOf(q, ip, env.vni).Some? ==> KeyOf(q, ip, env.vni).value in s'.ct
  {
    hide *;
    var s1, q := TrackBytes(s, p, ip, env);
    ShapeMeans(p, q, ip);
    var p1 := VipStages(q, ip, env);
    ShapeMeans(q, p1, ip);
    Stages(s, p, ip, env, s1, q, p1);
    RouteDstMeans(p, ip, env);
    var (s2, p2, _) := SnatPacket(s1, p1, ip, env.vni, env.routes[Addr(p1, ip + 16)], env.now);
    DefaultTracks(s2, p2, ip, env);
  }

  lemma DefaultTracks(s: State, q: seq<u8>, ip: nat, env: Env)
    ensures KeyOf(q, ip, env.vni).Some? ==> KeyOf(q, ip, env.vni).value in EgressDefault(s, q, ip, env).ct
    ensures Plain(q, ip) && KeyOf(q, ip, env.vni).Some? && KeyOf(q, ip, env.vni).value !in s.ct ==>
              && Plain(Mirror(q, ip), ip) && KeyOf(Mirror(q, ip), ip, env.vni).Some?
              && KeyOf(Mirror(q, ip), ip, env.vni).value in EgressDefault(s, q, ip, env).ct
  {
    if Plain(q, ip) && KeyOf(q, ip, env.vni).Some? { MirrorKey(q, ip, env.vni); }
    hide KeyOf, TcpFlags, Plain, Mirror;
  }

  /** The answer's key is the inverted key. */
  lemma MirrorKey(q: seq<u8>, ip: nat, vni: u32)
    requires Plain(q, ip)
    ensures KeyOf(q, ip, vni).Some? && Plain(Mirror(q, ip), ip)
    ensures KeyOf(Mirror(q, ip), ip, vni) == Some(InvertKey(KeyOf(q, ip, vni).value))
  {
    MirrorAnswers(q, ip);
    hide Mirror;
  }

  /**
   * The first packet of a flow that is not NATed is tracked in both directions: the peer's answer meets an
   * entry, so it is no new flow to the ingress firewall.
   */
  lemma AnswerIsTracked(s: State, p: seq<u8>, ip: nat, env: Env)
    requires ip + 20 <= |p| && Ihl(p, ip) >= 20 && !Firewalled(s, p, ip, env) && RouteDst(p, ip, env) in env.routes
    requires !IsNatted(s, p, ip, env)
    ensures var (s', q, _) := Egress(s, p, ip, env);
            Plain(q, ip) && KeyOf(q, ip, env.vni).Some? && KeyOf(q, ip, env.vni).value !in s.ct ==>
              && Plain(Mirror(q, ip), ip) && KeyOf(Mirror(q, ip), ip, env.vni).Some?
              && KeyOf(Mirror(q, ip), ip, env.vni).value in s'.ct
  {
    hide *;
    var s1, q := TrackBytes(s, p, ip, env);
    ShapeMeans(p, q, ip);
    var p1 := VipStages(q, ip, env);
    ShapeMeans(q, p1, ip);
    Stages(s, p, ip, env, s1, q, p1);
    RouteDstMeans(p, ip, env);
    IsNattedMeans(s, p, ip, env);
    SnatStage(s1, p1, ip, env, env.routes[Addr(p1, ip + 16)]);
    DefaultTracks(s1, p1, ip, env);
  }

  /** At the uplink a reply entry that is hit is refreshed and nothing else changes; a miss changes nothing at all. */
  lemma DemuxRefreshes(s: State, r: seq<u8>, ip: nat, vni: u32, now: u64, j: CtKey)
    ensures var (s', back, hit) := DemuxPacket(s, r, ip, vni, now);
            && s'.nats == s.nats && s'.natIps == s.natIps && s'.ifaces == s.ifaces && s'.ct.Keys == s.ct.Keys
            && (hit.None? ==> s' == s && back == r)
            && (hit.Some? ==>
                  && KeyOf(r, ip, vni).Some?
                  && var d := DemuxKey(s, KeyOf(r, ip, vni).value);
                     && d in s.ct && hit == Some(s.ct[d]) && s'.ct[d].lastSeen == now && SameXlate(s'.ct[d], s.ct[d])
                     && s'.ct[d].tcpState == (if TcpFlags(back, ip).Some?
                                              then TcpAdvance(s.ct[d].tcpState, TcpFlags(back, ip).value)
                                              else s.ct[d].tcpState)
                     && (j != d && j in s.ct ==> s'.ct[j] == s.ct[j]))
  {
    hide KeyOf, CtApplied, Has, TcpFlags, TcpAdvance;
  }

  // ---------------------------------------------------------------- TCP flags

  /** A TCP header (section 3.1 of RFC 9293) up to its urgent pointer. */
  function TcpHeader(sport: u16, dport: u16, seqNo: seq<u8>, ackNo: seq<u8>, dataOffset: u8, flags: bv8,
                     window: u16, check: u16, urgent: u16): (h: seq<u8>)
    requires |seqNo| == 4 && |ackNo| == 4
    ensures |h| == 20
  {
    [sport / 256, sport % 256, dport / 256, dport % 256] + seqNo + ackNo
    + [dataOffset, flags as u8, window / 256, window % 256, check / 256, check % 256, urgent / 256, urgent % 256]
  }

  /** The flags the tracker sees are those of the TCP header; ports and flags are what its encoding says. */
  lemma FlagsAreTheHeaders(
      front: seq<u8>, sport: u16, dport: u16, seqNo: seq<u8>, ackNo: seq<u8>, dataOffset: u8, flags: bv8,
      window: u16, check: u16, urgent: u16, rest: seq<u8>)
    requires |front| >= 20 && |seqNo| == 4 && |ackNo| == 4
    requires var ip := |front| - 20; front[ip] as int % 16 == 5 && front[ip + 9] == 6
    ensures var ip := |front| - 20;
            var p := front + TcpHeader(sport, dport, seqNo, ackNo, dataOffset, flags, window, check, urgent) + rest;
            TcpFlags(p, ip) == Some(flags) && L4Ports(p, ip) == Some((6, sport, dport))
  {
    var h := TcpHeader(sport, dport, seqNo, ackNo, dataOffset, flags, window, check, urgent);
    assert h[0] == sport / 256 && h[1] == sport % 256 && h[2] == dport / 256 && h[3] == dport % 256;
    assert h[13] == flags as u8;
    hide TcpHeader;
    var ip, p := |front| - 20, front + h + rest;
    assert p[ip] == front[ip] && p[ip + 9] == front[ip + 9];
    assert forall i | 0 <= i < 20 :: p[ip + 20 + i] == h[i];
    assert p[ip + 20] == h[0] && p[ip + 21] == h[1] && p[ip + 22] == h[2] && p[ip + 23] == h[3];
    assert p[ip + 33] == h[13];
    assert (flags as u8) as bv8 == flags;
  }

  /** Ports are read behind the options: where they are depends on the header length that the packet claims. */
  lemma PortsBehindOptions(front: seq<u8>, words: nat, x: u16, y: u16, rest: seq<u8>)
    requires 5 <= words <= 15 && |front| >= 4 * words && front[|front| - 4 * words] as int % 16 == words
    ensures var ip := |front| - 4 * words;
            var p := front + [x / 256, x % 256, y / 256, y % 256] + rest;
            && (front[ip + 9] == 6 || front[ip + 9] == 17 ==> L4Ports(p, ip) == Some((front[ip + 9], x, y)))
            && (front[ip + 9] == 1 ==>
                  if |rest| < 2 then L4Ports(p, ip) == None
                  else L4Ports(p, ip) == Some((1, W(rest, 0), W(rest, 0))))
            && (front[ip + 9] !in {1, 6, 17} ==> L4Ports(p, ip) == None)
  {
    var ip, n, h := |front| - 4 * words, |front|, [x / 256, x % 256, y / 256, y % 256];
    var p := front + h + rest;
    assert p[ip] == front[ip] && p[ip + 9] == front[ip + 9] && Ihl(p, ip) == 4 * words;
    assert p[n] == h[0] && p[n + 1] == h[1] && p[n + 2] == h[2] && p[n + 3] == h[3];
    if |rest| >= 2 { assert p[n + 4] == rest[0] && p[n + 5] == rest[1]; }
  }

  /**
   * A flow tracked without translation starts with its first packet's flags in both directions, is refreshed
   * by it, and its entries rewrite nothing.
   */
  lemma DefaultStarts(s: State, k: CtKey, now: u64, tcp: Option<bv8>, p: seq<u8>, ip: nat)
    ensures var s' := EnsureDefault(s, k, now, tcp);
            && k in s'.ct && InvertKey(k) in s'.ct
            && s'.ct[k].lastSeen == now && CtApplied(p, ip, s'.ct[k]) == p && !Tracked(s'.ct, k)
            && s'.ct[k].tcpState == (if tcp.Some? then Track([tcp.value]) else TCP_NONE)
            && (InvertKey(k) !in s.ct || InvertKey(k) == k ==> s'.ct[InvertKey(k)] == s'.ct[k])
            && (InvertKey(k) in s.ct && InvertKey(k) != k ==> s'.ct[InvertKey(k)] == s.ct[InvertKey(k)])
            && (forall j | j in s.ct && j != k :: j in s'.ct && s'.ct[j] == s.ct[j])
  {
    assert !Has(CT_F_DEFAULT, CT_F_SRC_NAT) && !Has(CT_F_DEFAULT, CT_REWRITE_SRC | CT_REWRITE_DST);
    if tcp.Some? {
      assert [tcp.value][..0] == [];
      assert Track([tcp.value]) == TcpAdvance(Track([]), tcp.value);
    }
    hide Has, TcpAdvance, Translated;
  }

  /** A mirrored packet has the flags of the packet. */
  lemma MirrorKeepsFlags(q: seq<u8>, ip: nat)
    requires Plain(q, ip)
    ensures TcpFlags(Mirror(q, ip), ip) == TcpFlags(q, ip)
  {
    assert q[ip + 9] == 6 && ip + 34 <= |q| ==> Mirror(q, ip)[ip + 33] == q[ip + 33];
    MirrorAnswers(q, ip);
    hide Mirror;
  }
}
