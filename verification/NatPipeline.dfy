/** The in-place IPv4 egress pipeline as a whole: ownership, checksums and what it does to a NATed flow. */
module NatPipeline {
  import opened Types
  import opened Bytes
  import opened Maps
  import opened Packet
  import opened Rewrite
  import opened RewriteProofs
  import opened NatTable
  import opened NatProofs
  import opened NatGateway
  import opened NatRoundTrip

  /** The egress pipeline is a run of the state machine, so ownership survives every packet. */
  lemma EgressKeepsInv(s: State, p: seq<u8>, ip: nat, env: Env)
    requires Inv(s) && ip + 20 <= |p|
    ensures Inv(Egress(s, p, ip, env).0)
  {
    hide Inv, Touch, EnsureDefault, Snat, CtApplied, VipApplied, NatApplied, Has;
    EgressTrackKeepsInv(s, p, ip, env);
    var (s1, q) := EgressTrack(s, p, ip, env);
    hide EgressTrack;
    if q.Some? {
      var p1 := VipApplied(VipApplied(q.value, ip, env.vips, env.vni, true), ip, env.vips, env.vni, false);
      if |p1| >= ip + 20 && Addr(p1, ip + 16) in env.routes {
        SnatPacketKeepsInv(s1, p1, ip, env.vni, env.routes[Addr(p1, ip + 16)], env.now);
        var (s2, p2, _) := SnatPacket(s1, p1, ip, env.vni, env.routes[Addr(p1, ip + 16)], env.now);
        if KeyOf(p2, ip, env.vni).Some? {
          DefaultKeepsInv(s2, KeyOf(p2, ip, env.vni).value, env.now, TcpFlags(p2, ip));
        }
      }
    }
  }

  lemma EgressTrackKeepsInv(s: State, p: seq<u8>, ip: nat, env: Env)
    requires Inv(s)
    ensures Inv(EgressTrack(s, p, ip, env).0)
  {
    hide Inv, Touch, CtApplied, Has;
    if KeyOf(p, ip, env.vni).Some? && KeyOf(p, ip, env.vni).value in s.ct {
      var k := KeyOf(p, ip, env.vni).value;
      var q := if Has(s.ct[k].flags, CT_REWRITE_SRC) then CtApplied(p, ip, s.ct[k]) else p;
      TouchKeepsInv(s, k, env.now, TcpFlags(q, ip));
    }
  }

  /** 0.0.0.0 is nobody's address. */
  ghost predicate GuestsAddressed(s: State) { forall nk | nk in s.nats :: nk.ip != ANY_IP4 }

  /** Port 0 is in no range. */
  ghost predicate PositivePorts(s: State) { forall nk | nk in s.nats :: s.nats[nk].portMin > 0 }

  /**
   * A packet that enters the egress pipeline with good checksums leaves it with good checksums, provided
   * that no range holds port 0 or the packet is not an ICMP message that is zero apart from its identifier.
   */
  lemma EgressKeepsChecksums(s: State, p: seq<u8>, ip: nat, env: Env)
    requires Inv(s) && GuestsAddressed(s) && Valid(p, ip) && (PositivePorts(s) || NotBlank(p, ip))
    ensures Valid(Egress(s, p, ip, env).1, ip)
  {
    hide Inv, Valid, Touch, CtApplied, VipApplied, NatApplied, Has, EgressDefault, SnatPacket, WellFormed, NotBlank;
    ValidHolds(p, ip);
    EgressTrackKeepsInv(s, p, ip, env);
    var (s1, q) := EgressTrack(s, p, ip, env);
    if KeyOf(p, ip, env.vni).Some? && KeyOf(p, ip, env.vni).value in s.ct {
      CtApplyKeepsChecksums(p, ip, s.ct[KeyOf(p, ip, env.vni).value]);
      if NotBlank(p, ip) { CtApplyKeepsNotBlank(p, ip, s.ct[KeyOf(p, ip, env.vni).value]); }
    }
    if q.Some? {
      TouchedNats(s, p, ip, env);
      hide EgressTrack;
      var p0 := VipApplied(q.value, ip, env.vips, env.vni, true);
      VipKeepsChecksums(q.value, ip, env.vips, env.vni, true);
      VipKeepsChecksums(p0, ip, env.vips, env.vni, false);
      var p1 := VipApplied(p0, ip, env.vips, env.vni, false);
      if NotBlank(q.value, ip) {
        VipKeepsNotBlank(q.value, ip, env.vips, env.vni, true);
        VipKeepsNotBlank(p0, ip, env.vips, env.vni, false);
      }
      if |p1| >= ip + 20 && Addr(p1, ip + 16) in env.routes {
        SnatPacketKeepsChecksums(s1, p1, ip, env.vni, env.routes[Addr(p1, ip + 16)], env.now);
      }
    }
  }

  lemma TouchedNats(s: State, p: seq<u8>, ip: nat, env: Env)
    ensures EgressTrack(s, p, ip, env).0.nats == s.nats
  {
  }

  lemma SnatPacketKeepsChecksums(s: State, p: seq<u8>, ip: nat, vni: u32, isExternal: bool, now: u64)
    requires Inv(s) && GuestsAddressed(s) && Valid(p, ip) && (PositivePorts(s) || NotBlank(p, ip))
    ensures Valid(SnatPacket(s, p, ip, vni, isExternal, now).1, ip)
  {
    hide Inv, Valid, NatApplied, Has, Alloc, WellFormed, HoldsL4, IcmpRest;
    ValidHolds(p, ip);
    var key := KeyOf(p, ip, vni);
    if key.Some? && isExternal && Snat(s, key.value, false, now).1.Some? {
      var k, port := key.value, Snat(s, key.value, false, now).1.value;
      SnatPortOwned(s, k, false, now);
      NatKeepsChecksumsIff(p, ip, k.proto, k.sport, k.dport, s.nats[NatKey(vni, k.src)].natIp, port);
    }
  }

  // ---------------------------------------------------------------- fast path and slow path

  /** The port condition under which conntrack and network SNAT make the same of a packet. */
  predicate PortAgrees(p: seq<u8>, ip: nat, k: CtKey, e: CtEntry)
    requires ip + 20 <= |p|
  {
    || e.xlatePort != 0
    || !L4Fits(p, ip + 20, k.proto)
    || (k.sport == 0 && ZeroPortHarmless(W(p, ip + 20 + CheckOff(k.proto)), k.proto, k.src, e.xlateIp))
  }

  /**
   * For a flow whose forward entry agrees with its NAT configuration, network SNAT changes no map and makes
   * of the packet what the entry makes of it, exactly under the port condition of the two rewriters.
   */
  lemma FastPathIsSnatPacketIff(s: State, p: seq<u8>, ip: nat, k: CtKey, now: u64)
    requires ip + 20 <= |p| && p[ip] as int % 16 == 5 && KeyOf(p, ip, k.vni) == Some(k)
    requires Tracked(s.ct, k) && Has(s.ct[k].flags, CT_REWRITE_SRC)
    requires NatKey(k.vni, k.src) in s.nats && Range(s.nats[NatKey(k.vni, k.src)]) != 0
    requires s.nats[NatKey(k.vni, k.src)].natIp == s.ct[k].xlateIp
    ensures var (s', q, done) := SnatPacket(s, p, ip, k.vni, true, now);
            var e := s.ct[k];
            && done && s' == s && q == NatApplied(p, ip, k.sport, e.xlateIp, e.xlatePort)
            && (CtApplied(p, ip, e) == q <==> PortAgrees(p, ip, k, e))
  {
    hide NatApplied, CtApplied, Has, Alloc, ZeroPortHarmless;
    FastPathIsSlowPathIff(p, ip, s.ct[k], k.proto, k.sport, k.dport);
  }

  /** In an invariant state a tracked flow's entry agrees with the configuration. */
  lemma TrackedAgrees(s: State, k: CtKey)
    requires Inv(s) && Tracked(s.ct, k) && k.src != ANY_IP4
    ensures var e, nk := s.ct[k], NatKey(k.vni, k.src);
            && Has(e.flags, CT_REWRITE_SRC) && nk in s.nats && Range(s.nats[nk]) != 0
            && s.nats[nk].natIp == e.xlateIp && s.nats[nk].portMin <= e.xlatePort < s.nats[nk].portMax
  {
    hide Has;
    assert EntryOk(s.nats, k, s.ct[k]);
  }

  /** Hence the two paths agree on every tracked flow of a guest whose range does not hold port 0. */
  lemma FastPathIsSnatPacket(s: State, p: seq<u8>, ip: nat, k: CtKey, now: u64)
    requires Inv(s) && Plain(p, ip) && KeyOf(p, ip, k.vni) == Some(k) && k.src != ANY_IP4 && Tracked(s.ct, k)
    requires NatKey(k.vni, k.src) in s.nats ==> s.nats[NatKey(k.vni, k.src)].portMin > 0
    ensures var (s', q, done) := SnatPacket(s, p, ip, k.vni, true, now);
            done && s' == s && q == CtApplied(p, ip, s.ct[k])
  {
    TrackedAgrees(s, k);
    hide Inv, NatApplied, CtApplied, Has, Alloc, ZeroPortHarmless, SnatPacket;
    FastPathIsSnatPacketIff(s, p, ip, k, now);
  }

  // ---------------------------------------------------------------- a NATed flow through the pipeline

  /** The guest has NAT towards an external destination, and neither VIPs nor a second NAT entry interfere. */
  predicate NatOnly(s: State, k: CtKey, env: Env) {
    var nk := NatKey(k.vni, k.src);
    && k.vni == env.vni && k.src != ANY_IP4 && nk in s.nats && Range(s.nats[nk]) != 0
    && NatKey(k.vni, s.nats[nk].natIp) !in s.nats
    && VipKey(k.vni, k.src) !in env.vips && VipKey(k.vni, k.dst) !in env.vips
    && VipKey(k.vni, s.nats[nk].natIp) !in env.vips
    && k.dst in env.routes && env.routes[k.dst]
    && (k in s.ct || !env.fwDrops)
  }

  /** Address and key of a translated packet. */
  lemma TranslatedKey(p: seq<u8>, ip: nat, k: CtKey, natIp: Ip4, port: u16)
    requires Plain(p, ip) && KeyOf(p, ip, k.vni) == Some(k)
    ensures var q := NatApplied(p, ip, k.sport, natIp, port);
            && Plain(q, ip) && Addr(q, ip + 12) == natIp && Addr(q, ip + 16) == k.dst
            && KeyOf(q, ip, k.vni)
               == Some(CtKey(k.vni, natIp, k.dst, port, if k.proto == IPPROTO_ICMP then port else k.dport, k.proto))
  {
    SnatOnTheWire(p, ip, k, natIp, port);
    hide NatApplied;
  }

  /** The same for a translation by an entry, which may leave the port alone. */
  lemma EntryTranslatedKey(p: seq<u8>, ip: nat, k: CtKey, e: CtEntry)
    requires Plain(p, ip) && KeyOf(p, ip, k.vni) == Some(k) && Has(e.flags, CT_REWRITE_SRC)
    ensures var q := CtApplied(p, ip, e);
            && Plain(q, ip) && Addr(q, ip + 12) == e.xlateIp && Addr(q, ip + 16) == k.dst
            && KeyOf(q, ip, k.vni).Some? && KeyOf(q, ip, k.vni).value.src == e.xlateIp
  {
    SrcMask(e.flags);
    hide Translated, Has;
    TranslatedFields(p, ip, OldPort(p, ip + 20, p[ip + 9], true), EntryXlate(e));
  }

  lemma NoVips(q: seq<u8>, ip: nat, env: Env)
    requires ip + 20 <= |q|
    requires VipKey(env.vni, Addr(q, ip + 12)) !in env.vips && VipKey(env.vni, Addr(q, ip + 16)) !in env.vips
    ensures VipApplied(VipApplied(q, ip, env.vips, env.vni, true), ip, env.vips, env.vni, false) == q
  {
    hide Translated;
  }

  /** Probing looks at which keys exist, not at what they map to. */
  lemma {:induction false} FirstFreeByKeys(ct: map<CtKey, CtEntry>, ct': map<CtKey, CtEntry>, k: CtKey, v: NatValue,
                                           start: u16, i: nat)
    requires ct.Keys == ct'.Keys && Range(v) != 0 && i <= PROBE_LIMIT
    ensures FirstFree(ct, k, v, start, i) == FirstFree(ct', k, v, start, i)
    decreases PROBE_LIMIT - i
  {
    hide Candidate;
    if i < PROBE_LIMIT {
      FirstFreeByKeys(ct, ct', k, v, start, i + 1);
    }
  }

  /** What the conntrack stage does for a flow that NAT will translate. */
  lemma TrackStage(s: State, p: seq<u8>, ip: nat, k: CtKey, env: Env)
    requires Inv(s) && Plain(p, ip) && KeyOf(p, ip, env.vni) == Some(k) && NatOnly(s, k, env)
    ensures var (s1, q) := EgressTrack(s, p, ip, env);
            && s1.nats == s.nats && s1.natIps == s.natIps && s1.ct.Keys == s.ct.Keys
            && q == Some(if Tracked(s.ct, k) then CtApplied(p, ip, s.ct[k]) else p)
            && (Tracked(s1.ct, k) <==> Tracked(s.ct, k)) && Inv(s1)
            && (Tracked(s.ct, k) ==> SameXlate(s1.ct[k], s.ct[k]))
  {
    EgressTrackKeepsInv(s, p, ip, env);
    if k in s.ct {
      assert EntryOk(s.nats, k, s.ct[k]);
    }
    hide Inv, CtApplied, Has;
  }

  /** The rest of the pipeline for a packet that is translated already: nothing more happens to it. */
  lemma AlreadyTranslated(s1: State, q: seq<u8>, ip: nat, k1: CtKey, env: Env)
    requires Plain(q, ip) && KeyOf(q, ip, env.vni) == Some(k1) && NatKey(env.vni, k1.src) !in s1.nats
    ensures SnatPacket(s1, q, ip, env.vni, true, env.now) == (s1, q, false)
  {
    hide NatApplied, Alloc;
  }

  /** The first packet of a flow, or one whose entry only tracks: SNAT allocates as it would have before tracking. */
  lemma AllocatesAlike(s: State, s1: State, p: seq<u8>, ip: nat, k: CtKey, now: u64)
    requires Plain(p, ip) && KeyOf(p, ip, k.vni) == Some(k) && NatKey(k.vni, k.src) in s.nats
    requires Range(s.nats[NatKey(k.vni, k.src)]) != 0 && !Tracked(s.ct, k) && !Tracked(s1.ct, k)
    requires s1.nats == s.nats && s1.ct.Keys == s.ct.Keys
    ensures Snat(s, k, false, now).1.Some?
    ensures var (s2, q, done) := SnatPacket(s1, p, ip, k.vni, true, now);
            var v, port := s.nats[NatKey(k.vni, k.src)], Snat(s, k, false, now).1.value;
            && done && q == NatApplied(p, ip, k.sport, v.natIp, port)
            && k in s2.ct && s2.ct[k] == FwdEntry(v, port, false, now) && s2.nats == s.nats
  {
    var v := s.nats[NatKey(k.vni, k.src)];
    FirstFreeByKeys(s.ct, s1.ct, k, v, StartSlot(k, v), 0);
    hide NatApplied, StartSlot, Candidate, FirstFree, Tracked, Has;
  }

  /**
   * The pipeline makes exactly one translation of an external packet of a NATed flow: that of its forward
   * entry if it is tracked, else the one allocation decides on. Either way it is the slow path's translation
   * to the guest's public address and the flow's port, for tracked flows exactly under the port condition.
   * The forward entry then holds that address and port.
   */
  lemma EgressIsOneTranslation(s: State, p: seq<u8>, ip: nat, k: CtKey, env: Env)
    requires Inv(s) && Plain(p, ip) && KeyOf(p, ip, env.vni) == Some(k) && NatOnly(s, k, env)
    ensures NatKey(k.vni, k.src) in s.nats && Snat(s, k, false, env.now).1.Some?
    ensures var (s', q, v) := Egress(s, p, ip, env);
            var natIp, port := s.nats[NatKey(k.vni, k.src)].natIp, Snat(s, k, false, env.now).1.value;
            && (q == NatApplied(p, ip, k.sport, natIp, port) <==> !Tracked(s.ct, k) || PortAgrees(p, ip, k, s.ct[k]))
            && (Tracked(s.ct, k) ==> q == CtApplied(p, ip, s.ct[k]))
            && v == (if env.meterPasses then Forward else Drop)
            && k in s'.ct && s'.ct[k].xlateIp == natIp && s'.ct[k].xlatePort == port
  {
    TrackStage(s, p, ip, k, env);
    var (s1, q0) := EgressTrack(s, p, ip, env);
    var v := s.nats[NatKey(k.vni, k.src)];
    if Tracked(s.ct, k) {
      TrackedFlow(s, s1, p, ip, k, env);
    } else {
      var q := UntrackedFlow(s, s1, p, ip, k, env);
    }
  }

  lemma TrackedFlow(s: State, s1: State, p: seq<u8>, ip: nat, k: CtKey, env: Env)
    requires Inv(s) && Plain(p, ip) && KeyOf(p, ip, env.vni) == Some(k) && NatOnly(s, k, env) && Tracked(s.ct, k)
    requires EgressTrack(s, p, ip, env) == (s1, Some(CtApplied(p, ip, s.ct[k]))) && s1.nats == s.nats
    requires k in s1.ct && SameXlate(s1.ct[k], s.ct[k])
    ensures Snat(s, k, false, env.now).1 == Some(s.ct[k].xlatePort) && NatKey(k.vni, k.src) in s.nats
    ensures var natIp, port := s.nats[NatKey(k.vni, k.src)].natIp, s.ct[k].xlatePort;
            CtApplied(p, ip, s.ct[k]) == NatApplied(p, ip, k.sport, natIp, port) <==> PortAgrees(p, ip, k, s.ct[k])
    ensures var (s', q, v) := Egress(s, p, ip, env);
            && q == CtApplied(p, ip, s.ct[k]) && v == (if env.meterPasses then Forward else Drop)
            && s' == EgressDefault(s1, q, ip, env)
            && k in s'.ct && s'.ct[k] == s1.ct[k] && s.ct[k].xlateIp == s.nats[NatKey(k.vni, k.src)].natIp
  {
    hide *;
    NatOnlyMeans(s, k, env);
    TrackedAgrees(s, k);
    TrackedSnat(s, k, env.now);
    PlainKey(p, ip, k);
    PortAgreesIff(p, ip, k, s.ct[k]);
    var q := CtApplied(p, ip, s.ct[k]);
    EntryTranslatedKey(p, ip, k, s.ct[k]);
    NoVips(q, ip, env);
    AlreadyTranslated(s1, q, ip, KeyOf(q, ip, env.vni).value, env);
    EgressAfterTrack(s, p, ip, env, s1, q);
    DefaultSpares(s1, q, ip, env, k);
  }

  lemma PlainKey(p: seq<u8>, ip: nat, k: CtKey)
    requires Plain(p, ip) && KeyOf(p, ip, k.vni) == Some(k)
    ensures ip + 20 <= |p| && p[ip] as int % 16 == 5 && Addr(p, ip + 16) == k.dst
    ensures L4Ports(p, ip) == Some((k.proto, k.sport, k.dport)) && Addr(p, ip + 12) == k.src
  {
  }

  lemma PortAgreesIff(p: seq<u8>, ip: nat, k: CtKey, e: CtEntry)
    requires ip + 20 <= |p| && p[ip] as int % 16 == 5 && L4Ports(p, ip) == Some((k.proto, k.sport, k.dport))
    requires Addr(p, ip + 12) == k.src && Has(e.flags, CT_REWRITE_SRC)
    ensures CtApplied(p, ip, e) == NatApplied(p, ip, k.sport, e.xlateIp, e.xlatePort) <==> PortAgrees(p, ip, k, e)
  {
    FastPathIsSlowPathIff(p, ip, e, k.proto, k.sport, k.dport);
    hide CtApplied, NatApplied, ZeroPortHarmless, Has;
  }

  lemma TrackedSnat(s: State, k: CtKey, now: u64)
    requires Tracked(s.ct, k) && NatKey(k.vni, k.src) in s.nats && Range(s.nats[NatKey(k.vni, k.src)]) != 0
    ensures k in s.ct && Snat(s, k, false, now) == (s, Some(s.ct[k].xlatePort))
  {
    hide Alloc;
  }

  lemma NatOnlyMeans(s: State, k: CtKey, env: Env)
    requires NatOnly(s, k, env)
    ensures k.vni == env.vni && k.src != ANY_IP4 && NatKey(k.vni, k.src) in s.nats
    ensures var v := s.nats[NatKey(k.vni, k.src)];
            && Range(v) != 0 && NatKey(k.vni, v.natIp) !in s.nats && VipKey(k.vni, v.natIp) !in env.vips
    ensures VipKey(k.vni, k.src) !in env.vips && VipKey(k.vni, k.dst) !in env.vips
    ensures k.dst in env.routes && env.routes[k.dst]
  {
  }

  /** The pipeline behind the conntrack stage when no VIP applies and the destination is external. */
  lemma EgressAfterTrack(s: State, p: seq<u8>, ip: nat, env: Env, s1: State, q: seq<u8>)
    requires ip + 20 <= |p| && ip + 20 <= |q| && EgressTrack(s, p, ip, env) == (s1, Some(q))
    requires VipApplied(VipApplied(q, ip, env.vips, env.vni, true), ip, env.vips, env.vni, false) == q
    requires Addr(q, ip + 16) in env.routes && env.routes[Addr(q, ip + 16)]
    ensures var (s2, p2, _) := SnatPacket(s1, q, ip, env.vni, true, env.now);
            Egress(s, p, ip, env) == (EgressDefault(s2, p2, ip, env), p2, if env.meterPasses then Forward else Drop)
  {
    hide EgressTrack, VipApplied, SnatPacket, EgressDefault;
  }

  lemma UntrackedFlow(s: State, s1: State, p: seq<u8>, ip: nat, k: CtKey, env: Env) returns (q: seq<u8>)
    requires Plain(p, ip) && KeyOf(p, ip, env.vni) == Some(k) && NatOnly(s, k, env)
    requires !Tracked(s.ct, k) && !Tracked(s1.ct, k)
    requires EgressTrack(s, p, ip, env) == (s1, Some(p)) && s1.nats == s.nats && s1.ct.Keys == s.ct.Keys
    ensures NatKey(k.vni, k.src) in s.nats && Snat(s, k, false, env.now).1.Some?
    ensures var v, port := s.nats[NatKey(k.vni, k.src)], Snat(s, k, false, env.now).1.value;
            && q == NatApplied(p, ip, k.sport, v.natIp, port)
            && var (s', q', verdict) := Egress(s, p, ip, env);
               && q' == q && verdict == (if env.meterPasses then Forward else Drop)
               && k in s'.ct && s'.ct[k] == FwdEntry(v, port, false, env.now)
               && s' == EgressDefault(SnatPacket(s1, p, ip, env.vni, true, env.now).0, q, ip, env)
  {
    hide *;
    NatOnlyMeans(s, k, env);
    PlainKey(p, ip, k);
    AllocatesAlike(s, s1, p, ip, k, env.now);
    NoVips(p, ip, env);
    EgressAfterTrack(s, p, ip, env, s1, p);
    var (s2, q2, _) := SnatPacket(s1, p, ip, env.vni, true, env.now);
    q := q2;
    DefaultSpares(s2, q, ip, env, k);
  }

  /** Tracking the packet as it leaves overwrites no entry. */
  lemma DefaultSpares(s: State, q: seq<u8>, ip: nat, env: Env, k: CtKey)
    requires k in s.ct
    ensures var s' := EgressDefault(s, q, ip, env); k in s'.ct && s'.ct[k] == s.ct[k]
  {
    hide KeyOf, TcpFlags;
  }

  /** Tracking as the packet leaves is a step of the state machine that spares everything, or no step. */
  lemma DefaultIsStep(s: State, q: seq<u8>, ip: nat, env: Env, steps: seq<Step>, rk: CtKey) returns (all: seq<Step>)
    requires rk in s.ct && SparingRun(EgressDefault(s, q, ip, env), steps, rk)
    ensures Run(s, all) == Run(EgressDefault(s, q, ip, env), steps) && SparingRun(s, all, rk)
  {
    var key := KeyOf(q, ip, env.vni);
    if key.Some? && key.value !in s.ct {
      var t := PacketDefault(key.value, env.now, TcpFlags(q, ip));
      all := [t] + steps;
      DefaultStepSpares(s, key.value, env.now, TcpFlags(q, ip), rk);
      hide EnsureDefault, KeyOf, TcpFlags, Spares, Allowed;
      assert all[1..] == steps;
      assert Apply(s, t) == EgressDefault(s, q, ip, env);
    } else {
      all := steps;
    }
  }

  lemma DefaultStepSpares(s: State, k: CtKey, now: u64, tcp: Option<bv8>, rk: CtKey)
    requires rk in s.ct && k !in s.ct
    ensures Spares(s, PacketDefault(k, now, tcp), rk)
  {
  }

  lemma FreshAfterTracking(s: State, s1: State, k: CtKey)
    requires FreshlyAllocated(s, k) && s1.nats == s.nats && s1.ct.Keys == s.ct.Keys && !Tracked(s1.ct, k)
    ensures FreshlyAllocated(s1, k)
  {
    var v := s.nats[NatKey(k.vni, k.src)];
    FirstFreeByKeys(s.ct, s1.ct, k, v, StartSlot(k, v), 0);
    hide StartSlot, FirstFree, Tracked;
  }

  /** The key under which replies to the packet that left are pinned. */
  function ReplyKey(s: State, k: CtKey, now: u64): CtKey
    requires NatKey(k.vni, k.src) in s.nats && Snat(s, k, false, now).1.Some?
  {
    RevKey(k.vni, s.nats[NatKey(k.vni, k.src)].natIp, Snat(s, k, false, now).1.value, k.proto)
  }

  /**
   * Round trip through the whole pipeline: a packet that opens a NATed flow goes through all of egress; after
   * any run that does not remove the reply entry, a mirrored reply at the uplink is rewritten to exactly
   * the guest's address and port (a flow from port 0 keeps the public port), and good checksums stay good.
   */
  lemma EgressRoundTripOverRuns(
      s: State, p: seq<u8>, ip: nat, k: CtKey, env: Env, steps: seq<Step>, r: seq<u8>, ir: nat, replyTime: u64)
    requires Inv(s) && Plain(p, ip) && KeyOf(p, ip, env.vni) == Some(k) && NatOnly(s, k, env)
    requires FreshlyAllocated(s, k) && NatKey(k.vni, k.src) in s.nats && Snat(s, k, false, env.now).1.Some?
    requires var (s', q, _) := Egress(s, p, ip, env);
             Plain(q, ip) && Plain(r, ir) && Mirrors(r, ir, q, ip) && SparingRun(s', steps, ReplyKey(s, k, env.now))
    ensures var later := Run(Egress(s, p, ip, env).0, steps);
            var (_, back, hit) := DemuxPacket(later, r, ir, k.vni, replyTime);
            && hit.Some? && hit.value.xlateIp == k.src && hit.value.xlatePort == k.sport
            && Returned(r, ir, back, k)
  {
    hide *;
    FreshIsUntracked(s, k);
    NatOnlyMeans(s, k, env);
    TrackStage(s, p, ip, k, env);
    var s1 := EgressTrack(s, p, ip, env).0;
    FreshAfterTracking(s, s1, k);
    var q := UntrackedFlow(s, s1, p, ip, k, env);
    AllocatesAlike(s, s1, p, ip, k, env.now);
    PinnedBySnat(s1, p, ip, k, env.now);
    TranslatedKey(p, ip, k, s.nats[NatKey(k.vni, k.src)].natIp, Snat(s, k, false, env.now).1.value);
    var s2 := SnatPacket(s1, p, ip, env.vni, true, env.now).0;
    ReplyKeyMeans(s, k, env.now, s2.ct[k]);
    TrackedIsIn(s2.ct, ReplyKey(s, k, env.now));
    var all := DefaultIsStep(s2, q, ip, env, steps, ReplyKey(s, k, env.now));
    NatRoundTripOverRuns(s1, p, ip, k, env.now, all, r, ir, replyTime);
  }

  lemma FreshIsUntracked(s: State, k: CtKey)
    requires FreshlyAllocated(s, k)
    ensures !Tracked(s.ct, k)
  {
    hide FirstFree, StartSlot;
  }

  lemma ReplyKeyMeans(s: State, k: CtKey, now: u64, e: CtEntry)
    requires NatKey(k.vni, k.src) in s.nats && Snat(s, k, false, now).1.Some?
    requires e == FwdEntry(s.nats[NatKey(k.vni, k.src)], Snat(s, k, false, now).1.value, false, now)
    ensures ReplyKey(s, k, now) == RevKey(k.vni, s.nats[NatKey(k.vni, k.src)].natIp, e.xlatePort, k.proto)
  {
    hide Snat;
  }
}
