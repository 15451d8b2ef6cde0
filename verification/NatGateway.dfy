/** The datapath programs and control calls that work on the NAT maps, each proved against its specification. */
module NatGateway {
  import opened Types
  import opened Bytes
  import opened Maps
  import opened Packet
  import opened Rewrite
  import opened Tracker
  import opened NatTable

  /** What network SNAT does with a packet: maps, bytes and whether it translated. */
  function SnatPacket(s: State, p: seq<u8>, ip: nat, vni: u32, isExternal: bool, now: u64): (State, seq<u8>, bool) {
    match KeyOf(p, ip, vni)
    case None => (s, p, false)
    case Some(k) =>
      if !isExternal then (s, p, false) else
      var (s', port) := Snat(s, k, false, now);
      if port.None? then (s', p, false)
      else (s', NatApplied(p, ip, k.sport, s.nats[NatKey(vni, k.src)].natIp, port.value), true)
  }

  /** What the uplink does with the inner packet: reply entries are applied and refreshed. */
  function DemuxPacket(s: State, p: seq<u8>, ip: nat, vni: u32, now: u64): (State, seq<u8>, Option<CtEntry>) {
    match KeyOf(p, ip, vni)
    case None => (s, p, None)
    case Some(k) =>
      match Demux(s, k)
      case None => (s, p, None)
      case Some(e) =>
        var q := CtApplied(p, ip, e);
        (Touch(s, DemuxKey(s, k), now, TcpFlags(q, ip)), q, Some(e))
  }

  /**
   * Admission at the uplink, for the packet as the guest will see it: the firewall refuses new flows only;
   * what is neither balanced nor a NAT reply (`tracks`) is then tracked.
   */
  function Admit(s: State, p: seq<u8>, ip: nat, vni: u32, fwDrops: bool, tracks: bool, now: u64): (State, bool) {
    match KeyOf(p, ip, vni)
    case None => (s, true)
    case Some(k) =>
      if k !in s.ct && fwDrops then (s, false)
      else if !tracks then (s, true)
      else if k in s.ct then (Touch(s, k, now, TcpFlags(p, ip)), true)
      else (EnsureDefault(s, k, now, TcpFlags(p, ip)), true)
  }

  datatype Verdict = Drop | Pass | Forward

  datatype Env = Env(
    vni: u32, vips: map<VipKey, Ip4>, fwDrops: bool, routes: map<Ip4, bool>, meterPasses: bool, now: u64)

  /** Conntrack and firewall stage of the egress pipeline; `None` means dropped. */
  function EgressTrack(s: State, p: seq<u8>, ip: nat, env: Env): (State, Option<seq<u8>>) {
    match KeyOf(p, ip, env.vni)
    case None => (s, Some(p))
    case Some(k) =>
      if k in s.ct then
        var q := if Has(s.ct[k].flags, CT_REWRITE_SRC) then CtApplied(p, ip, s.ct[k]) else p;
        (Touch(s, k, env.now, TcpFlags(q, ip)), Some(q))
      else if env.fwDrops then (s, None)
      else (s, Some(p))
  }

  /** Track the packet as it leaves. */
  function EgressDefault(s: State, p: seq<u8>, ip: nat, env: Env): State {
    match KeyOf(p, ip, env.vni)
    case None => s
    case Some(k) => if k in s.ct then s else EnsureDefault(s, k, env.now, TcpFlags(p, ip))
  }

  /** The whole in-place IPv4 egress pipeline. */
  function Egress(s: State, p: seq<u8>, ip: nat, env: Env): (State, seq<u8>, Verdict)
    requires ip + 20 <= |p|
  {
    var (s1, q) := EgressTrack(s, p, ip, env);
    if q.None? then (s1, p, Drop) else
    var p1 := VipApplied(VipApplied(q.value, ip, env.vips, env.vni, true), ip, env.vips, env.vni, false);
    if |p1| < ip + 20 || Addr(p1, ip + 16) !in env.routes then (s1, p1, Pass) else
    var (s2, p2, _) := SnatPacket(s1, p1, ip, env.vni, env.routes[Addr(p1, ip + 16)], env.now);
    (EgressDefault(s2, p2, ip, env), p2, if env.meterPasses then Forward else Drop)
  }

  class Gateway {
    var conntrack: map<CtKey, CtEntry>
    var nats: map<NatKey, NatValue>
    var natIps: set<VipKey>
    var ifaces: map<Id, Iface>

    function St(): State
      reads this
    {
      State(conntrack, nats, natIps, ifaces)
    }

    constructor ()
      ensures St() == INIT
    {
      conntrack, nats, natIps, ifaces := map[], map[], {}, map[];
    }

    /** Hash to a starting slot, probe linearly for an unused reply key, pin both directions. */
    method AllocPort(k: CtKey, v: NatValue, n64: bool, now: u64) returns (chosen: u16)
      requires Range(v) != 0
      modifies this`conntrack
      ensures (conntrack, chosen) == Alloc(old(conntrack), k, v, n64, now)
    {
      var range := Range(v);
      var start := Hash5(k.src, k.dst, k.sport, k.dport, k.proto) % range;
      hide Hash5, Candidate;
      chosen := Candidate(v, start, 0);
      var i := 0;
      while i < PROBE_LIMIT
        invariant i <= PROBE_LIMIT && conntrack == old(conntrack) && chosen == Candidate(v, start, 0)
        invariant FirstFree(conntrack, k, v, start, 0) == FirstFree(conntrack, k, v, start, i)
      {
        var cand := Candidate(v, start, i);
        var revKey := CtKey(k.vni, ANY_IP4, v.natIp, 0, cand, k.proto);
        if revKey !in conntrack {
          chosen := cand;
          conntrack := conntrack[revKey := CtEntry(now, k.src, k.sport, RevFlags(n64), 0, 0)];
          break;
        }
        i := i + 1;
      }
      conntrack := conntrack[k := CtEntry(now, v.natIp, chosen, FwdFlags(n64), 0, 0)];
    }

    /** Egress network SNAT of the packet at `ip`. */
    method NatSnatEgress(f: Frame, ip: nat, vni: u32, isExternal: bool, now: u64) returns (done: bool)
      modifies this`conntrack, f`bytes
      ensures (St(), f.bytes, done) == SnatPacket(old(St()), old(f.bytes), ip, vni, isExternal, now)
    {
      hide Alloc, NatApplied, Range;
      if !isExternal { return false; }
      if ip + 20 > |f.bytes| { return false; }
      var src, dst := Addr(f.bytes, ip + 12), Addr(f.bytes, ip + 16);
      if NatKey(vni, src) !in nats { return false; }
      var v := nats[NatKey(vni, src)];
      if Range(v) == 0 { return false; }
      var ports := L4Ports(f.bytes, ip);
      if ports.None? { return false; }
      var (proto, sport, dport) := ports.value;
      var fwdKey := CtKey(vni, src, dst, sport, dport, proto);
      var natPort;
      if fwdKey in conntrack && Has(conntrack[fwdKey].flags, CT_F_SRC_NAT) {
        natPort := conntrack[fwdKey].xlatePort;
      } else {
        natPort := AllocPort(fwdKey, v, false, now);
      }
      NatRewrite(f, ip, proto, src, sport, v.natIp, natPort);
      done := true;
    }

    /** Refresh the entry under `key` from the packet just seen. */
    method CtTouch(p: seq<u8>, ip: nat, key: CtKey, e: CtEntry, now: u64)
      requires key in conntrack && conntrack[key] == e
      modifies this`conntrack
      ensures St() == Touch(old(St()), key, now, TcpFlags(p, ip))
    {
      var e' := e.(lastSeen := now);
      var fl := TcpFlags(p, ip);
      if fl.Some? {
        e' := e'.(tcpState := TcpAdvance(e'.tcpState, fl.value));
      }
      conntrack := conntrack[key := e'];
    }

    method CtEnsureDefault(p: seq<u8>, ip: nat, key: CtKey, now: u64)
      modifies this`conntrack
      ensures St() == EnsureDefault(old(St()), key, now, TcpFlags(p, ip))
    {
      var fl := TcpFlags(p, ip);
      var tcp := if fl.Some? then TcpAdvance(0, fl.value) else 0;
      var e := CtEntry(now, ANY_IP4, 0, CT_F_DEFAULT, tcp, 0);
      conntrack := conntrack[key := e];
      var rev := InvertKey(key);
      if rev !in conntrack {
        conntrack := conntrack[rev := e];
      }
    }

    /** Return demultiplexing on the uplink: NAT replies are found without their peer. */
    method UplinkDemux(f: Frame, ip: nat, vni: u32, now: u64) returns (hit: Option<CtEntry>)
      modifies this`conntrack, f`bytes
      ensures (St(), f.bytes, hit) == DemuxPacket(old(St()), old(f.bytes), ip, vni, now)
    {
      hide CtApplied, Touched, Has;
      var seen := KeyOf(f.bytes, ip, vni);
      if seen.None? { return None; }
      var key := seen.value;
      if VipKey(vni, key.dst) in natIps {
        key := key.(src := ANY_IP4, sport := 0);
      }
      if key !in conntrack || !Has(conntrack[key].flags, CT_REWRITE_DST) { return None; }
      var e := conntrack[key];
      CtApply(f, ip, e);
      CtTouch(f.bytes, ip, key, e, now);
      hit := Some(e);
    }

    /** Ingress firewall for new flows, then tracking. */
    method UplinkAdmit(p: seq<u8>, ip: nat, vni: u32, fwDrops: bool, tracks: bool, now: u64) returns (ok: bool)
      modifies this`conntrack
      ensures (St(), ok) == Admit(old(St()), p, ip, vni, fwDrops, tracks, now)
    {
      hide Touched;
      var key := KeyOf(p, ip, vni);
      if key.Some? && key.value !in conntrack && fwDrops { return false; }
      if tracks && key.Some? {
        if key.value in conntrack {
          CtTouch(p, ip, key.value, conntrack[key.value], now);
        } else {
          CtEnsureDefault(p, ip, key.value, now);
        }
      }
      ok := true;
    }

    /** The IPv4 egress pipeline: conntrack and firewall, VIPs, route, network NAT, tracking, meter. */
    method ForwardDecisionV4(f: Frame, ip: nat, env: Env) returns (verdict: Verdict)
      requires ip + 20 <= |f.bytes|
      modifies this`conntrack, f`bytes
      ensures (St(), f.bytes, verdict) == Egress(old(St()), old(f.bytes), ip, env)
    {
      hide CtApplied, Touched, Has, VipApplied, SnatPacket, EnsureDefault;
      var key := KeyOf(f.bytes, ip, env.vni);
      if key.Some? {
        if key.value in conntrack {
          var e := conntrack[key.value];
          if Has(e.flags, CT_REWRITE_SRC) {
            CtApply(f, ip, e);
          }
          CtTouch(f.bytes, ip, key.value, e, env.now);
        } else if env.fwDrops {
          return Drop;
        }
      }
      VipRewrite(f, ip, env.vips, env.vni, true);
      VipRewrite(f, ip, env.vips, env.vni, false);
      var dst := Addr(f.bytes, ip + 16);
      if dst !in env.routes { return Pass; }
      var isExt := env.routes[dst];
      var _ := NatSnatEgress(f, ip, env.vni, isExt, env.now);
      var out := KeyOf(f.bytes, ip, env.vni);
      if out.Some? && out.value !in conntrack {
        CtEnsureDefault(f.bytes, ip, out.value, env.now);
      }
      verdict := if env.meterPasses then Forward else Drop;
    }

    // -------------------------------------------------------------- control plane

    method CreateInterface(id: Id, vni: u32, ip: Ip4) returns (r: Outcome)
      modifies this`ifaces
      ensures (St(), r) == CreateIface(old(St()), id, vni, ip)
    {
      if id in ifaces { return IfaceExists; }
      if exists j | j in ifaces :: IfaceAt(ifaces, j, NatKey(vni, ip)) { return IpInUse; }
      ifaces := ifaces[id := Iface(vni, ip)];
      r := Ok;
    }

    method DetachInterface(id: Id, vniHasLb: bool) returns (r: Outcome)
      modifies this`ifaces, this`nats
      ensures (St(), r) == DetachIface(old(St()), id, vniHasLb)
    {
      if id !in ifaces { return NotFound; }
      var rec := ifaces[id];
      ifaces := ifaces - {id};
      var used := (exists j | j in ifaces :: ifaces[j].vni == rec.vni) || vniHasLb;
      if !used {
        nats := nats - {NatKey(rec.vni, rec.ip)};
      }
      r := Ok;
    }

    method CreateNat(id: Id, natIp: Ip4, portMin: u16, portMax: u16) returns (r: Outcome)
      modifies this`nats, this`natIps
      ensures (St(), r) == NatTable.CreateNat(old(St()), id, natIp, portMin, portMax)
    {
      if id !in ifaces { return NoVm; }
      var vni, gip := ifaces[id].vni, ifaces[id].ip;
      if NatKey(vni, gip) in nats { return SnatExists; }
      if Overlaps(St(), vni, natIp, portMin, portMax) { return RangeOverlap; }
      nats := nats[NatKey(vni, gip) := NatValue(natIp, portMin, portMax)];
      natIps := natIps + {VipKey(vni, natIp)};
      r := Ok;
    }

    /** Remove from conntrack everything selected, one key at a time. */
    method RemoveAll(keys: set<CtKey>)
      modifies this`conntrack
      ensures conntrack == old(conntrack) - keys
    {
      var pending := keys;
      while pending != {}
        invariant pending <= keys && conntrack == old(conntrack) - (keys - pending)
        decreases pending
      {
        var k :| k in pending;
        conntrack := conntrack - {k};
        pending := pending - {k};
      }
    }

    method DeleteNat(id: Id) returns (r: Outcome)
      modifies this`nats, this`natIps, this`conntrack
      ensures (St(), r) == NatTable.DeleteNat(old(St()), id)
    {
      hide Flushed;
      if id !in ifaces { return NoVm; }
      var vni, gip := ifaces[id].vni, ifaces[id].ip;
      if NatKey(vni, gip) !in nats { return NotFound; }
      var v := nats[NatKey(vni, gip)];
      nats := nats - {NatKey(vni, gip)};
      if !StillUsed(St(), id, nats, vni, v.natIp) {
        natIps := natIps - {VipKey(vni, v.natIp)};
      }
      RemoveAll(FlushKeys(conntrack, vni, gip, v));
      r := Ok;
    }

    /** One aging sweep. */
    method GcSweep(now: u64)
      modifies this`conntrack
      ensures St() == Evict(old(St()), set k | k in old(conntrack) && Stale(old(conntrack)[k], now))
      ensures forall k :: k in conntrack <==> k in old(conntrack) && !Stale(old(conntrack)[k], now)
    {
      var stale := set k | k in conntrack && Stale(conntrack[k], now);
      RemoveAll(stale);
    }
  }
}
