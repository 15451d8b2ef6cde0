/**
 * Network NAT as a state machine over the conntrack, NAT and NAT-IP maps and the interface records:
 * what each datapath step and each control call does to the maps.
 */
module NatTable {
  import opened Types
  import opened Maps
  import opened Packet
  import opened Tracker

  datatype Iface = Iface(vni: u32, ip: Ip4)

  datatype State = State(
    ct: map<CtKey, CtEntry>,
    nats: map<NatKey, NatValue>,
    natIps: set<VipKey>,
    ifaces: map<Id, Iface>)

  const PROBE_LIMIT: nat := 64

  // ---------------------------------------------------------------- port allocation

  /** The peer-independent key under which a reply to `natIp:port` is looked up. */
  function RevKey(vni: u32, natIp: Ip4, port: u16, proto: u8): CtKey {
    CtKey(vni, ANY_IP4, natIp, 0, port, proto)
  }

  /** Number of ports, with the wrap-around of a 16-bit subtraction. */
  function Range(v: NatValue): u16 { (v.portMax - v.portMin) % 0x1_0000 }

  /** The `i`-th port probed; both additions wrap at 16 bits. */
  function Candidate(v: NatValue, start: u16, i: nat): u16
    requires Range(v) != 0
  {
    (v.portMin + (start + i) % 0x1_0000 % Range(v)) % 0x1_0000
  }

  function StartSlot(k: CtKey, v: NatValue): u16
    requires Range(v) != 0
  {
    Hash5(k.src, k.dst, k.sport, k.dport, k.proto) % Range(v)
  }

  /** The first candidate from probe `i` on whose reply key is unused. */
  function FirstFree(ct: map<CtKey, CtEntry>, k: CtKey, v: NatValue, start: u16, i: nat): Option<u16>
    requires Range(v) != 0 && i <= PROBE_LIMIT
    decreases PROBE_LIMIT - i
  {
    if i == PROBE_LIMIT then None
    else if RevKey(k.vni, v.natIp, Candidate(v, start, i), k.proto) !in ct then Some(Candidate(v, start, i))
    else FirstFree(ct, k, v, start, i + 1)
  }

  /** Reply entries rewrite the destination; NAT64 flows are marked in both directions. */
  function RevFlags(n64: bool): (f: bv8)
    ensures Has(f, CT_REWRITE_DST) && !Has(f, CT_REWRITE_SRC) && Has(f, CT_F_SRC_NAT)
    ensures Has(f, CT_F_NAT64) <==> n64
  {
    CT_REWRITE_DST | CT_F_SRC_NAT | if n64 then CT_F_NAT64 else 0
  }

  /** Forward entries rewrite the source. */
  function FwdFlags(n64: bool): (f: bv8)
    ensures Has(f, CT_REWRITE_SRC) && !Has(f, CT_REWRITE_DST) && Has(f, CT_F_SRC_NAT)
    ensures Has(f, CT_F_NAT64) <==> n64
  {
    CT_REWRITE_SRC | CT_F_SRC_NAT | if n64 then CT_F_NAT64 else 0
  }

  function RevEntry(k: CtKey, n64: bool, now: u64): CtEntry {
    CtEntry(now, k.src, k.sport, RevFlags(n64), 0, 0)
  }

  function FwdEntry(v: NatValue, port: u16, n64: bool, now: u64): CtEntry {
    CtEntry(now, v.natIp, port, FwdFlags(n64), 0, 0)
  }

  /** Allocation: pin both directions on a free port, or only the forward one when every probe misses. */
  function Alloc(ct: map<CtKey, CtEntry>, k: CtKey, v: NatValue, n64: bool, now: u64): (map<CtKey, CtEntry>, u16)
    requires Range(v) != 0
  {
    var start := StartSlot(k, v);
    match FirstFree(ct, k, v, start, 0)
    case Some(p) =>
      (ct[RevKey(k.vni, v.natIp, p, k.proto) := RevEntry(k, n64, now)][k := FwdEntry(v, p, n64, now)], p)
    case None =>
      var p := Candidate(v, start, 0);
      (ct[k := FwdEntry(v, p, n64, now)], p)
  }

  predicate Tracked(ct: map<CtKey, CtEntry>, k: CtKey) { k in ct && Has(ct[k].flags, CT_F_SRC_NAT) }

  /** The NAT decision for an external packet with key `k`: reuse, allocate, or leave alone (None). */
  function Snat(s: State, k: CtKey, n64: bool, now: u64): (State, Option<u16>) {
    var nk := NatKey(k.vni, k.src);
    if nk !in s.nats || Range(s.nats[nk]) == 0 then (s, None)
    else if Tracked(s.ct, k) then (s, Some(s.ct[k].xlatePort))
    else
      var (ct, p) := Alloc(s.ct, k, s.nats[nk], n64, now);
      (s.(ct := ct), Some(p))
  }

  // ---------------------------------------------------------------- tracking, aging, lookups

  /** Refresh a matched entry: time stamp and, for TCP, the tracker. */
  function Touched(e: CtEntry, now: u64, tcp: Option<bv8>): CtEntry {
    e.(lastSeen := now, tcpState := if tcp.Some? then TcpAdvance(e.tcpState, tcp.value) else e.tcpState)
  }

  function Touch(s: State, k: CtKey, now: u64, tcp: Option<bv8>): State {
    if k in s.ct then s.(ct := s.ct[k := Touched(s.ct[k], now, tcp)]) else s
  }

  function InvertKey(k: CtKey): CtKey { CtKey(k.vni, k.dst, k.src, k.dport, k.sport, k.proto) }

  function DefaultEntry(now: u64, tcp: Option<bv8>): CtEntry {
    CtEntry(now, ANY_IP4, 0, CT_F_DEFAULT, if tcp.Some? then TcpAdvance(0, tcp.value) else 0, 0)
  }

  /** Track a flow without translation, and its reverse direction unless something is there already. */
  function EnsureDefault(s: State, k: CtKey, now: u64, tcp: Option<bv8>): State {
    var e := DefaultEntry(now, tcp);
    var ct := s.ct[k := e];
    s.(ct := if InvertKey(k) in ct then ct else ct[InvertKey(k) := e])
  }

  /** Aging and LRU eviction: any set of entries may disappear. */
  function Evict(s: State, ks: set<CtKey>): State { s.(ct := s.ct - ks) }

  /** The key an arriving packet is looked up by: replies to a registered NAT address lose their peer. */
  function DemuxKey(s: State, k: CtKey): CtKey {
    if VipKey(k.vni, k.dst) in s.natIps then k.(src := ANY_IP4, sport := 0) else k
  }

  /** The entry that rewrites an arriving packet, if any. */
  function Demux(s: State, k: CtKey): Option<CtEntry> {
    var d := DemuxKey(s, k);
    if d in s.ct && Has(s.ct[d].flags, CT_REWRITE_DST) then Some(s.ct[d]) else None
  }

  // ---------------------------------------------------------------- control plane

  datatype Outcome = Ok | NotFound | NoVm | IfaceExists | IpInUse | SnatExists | RangeOverlap

  predicate IfaceAt(ifaces: map<Id, Iface>, id: Id, k: NatKey) {
    id in ifaces && ifaces[id] == Iface(k.vni, k.ip)
  }

  predicate InUse(ifaces: map<Id, Iface>, k: NatKey) { exists id | id in ifaces :: IfaceAt(ifaces, id, k) }

  function CreateIface(s: State, id: Id, vni: u32, ip: Ip4): (State, Outcome) {
    if id in s.ifaces then (s, IfaceExists)
    else if InUse(s.ifaces, NatKey(vni, ip)) then (s, IpInUse)
    else (s.(ifaces := s.ifaces[id := Iface(vni, ip)]), Ok)
  }

  /** Detaching drops the NAT entry only with the last user of the VNI (balancers count as users). */
  function DetachIface(s: State, id: Id, vniHasLb: bool): (State, Outcome) {
    if id !in s.ifaces then (s, NotFound)
    else
      var r, ifaces := s.ifaces[id], s.ifaces - {id};
      var used := vniHasLb || exists j | j in ifaces :: ifaces[j].vni == r.vni;
      (s.(ifaces := ifaces, nats := if used then s.nats else s.nats - {NatKey(r.vni, r.ip)}), Ok)
  }

  /** Some interface of the VNI already NATs to `natIp` with an overlapping range. */
  predicate Overlaps(s: State, vni: u32, natIp: Ip4, portMin: u16, portMax: u16) {
    exists id | id in s.ifaces :: OverlapsAt(s, id, vni, natIp, portMin, portMax)
  }

  predicate OverlapsAt(s: State, id: Id, vni: u32, natIp: Ip4, portMin: u16, portMax: u16)
    requires id in s.ifaces
  {
    var r := s.ifaces[id];
    r.vni == vni && NatKey(vni, r.ip) in s.nats &&
    var v := s.nats[NatKey(vni, r.ip)];
    v.natIp == natIp && portMin < v.portMax && portMax > v.portMin
  }

  function CreateNat(s: State, id: Id, natIp: Ip4, portMin: u16, portMax: u16): (State, Outcome) {
    if id !in s.ifaces then (s, NoVm) else
    var r := s.ifaces[id];
    var nk := NatKey(r.vni, r.ip);
    if nk in s.nats then (s, SnatExists)
    else if Overlaps(s, r.vni, natIp, portMin, portMax) then (s, RangeOverlap)
    else (s.(nats := s.nats[nk := NatValue(natIp, portMin, portMax)], natIps := s.natIps + {VipKey(r.vni, natIp)}), Ok)
  }

  /** Entries removed with a guest's NAT: its forward entries and the reply entries in its port range. */
  predicate Flushed(k: CtKey, e: CtEntry, vni: u32, gip: Ip4, v: NatValue) {
    && k.vni == vni
    && (|| (k.src == gip && (Has(e.flags, CT_REWRITE_SRC) || Has(e.flags, CT_F_SRC_NAT)))
        || (k.dst == v.natIp && v.portMin <= k.dport < v.portMax && Has(e.flags, CT_REWRITE_DST)))
  }

  function FlushKeys(ct: map<CtKey, CtEntry>, vni: u32, gip: Ip4, v: NatValue): set<CtKey> {
    set k | k in ct && Flushed(k, ct[k], vni, gip, v)
  }

  /** Another interface of the VNI still NATs to the address. */
  predicate StillUsed(s: State, id: Id, nats: map<NatKey, NatValue>, vni: u32, natIp: Ip4) {
    exists o | o in s.ifaces ::
      o != id && s.ifaces[o].vni == vni
      && NatKey(vni, s.ifaces[o].ip) in nats && nats[NatKey(vni, s.ifaces[o].ip)].natIp == natIp
  }

  function DeleteNat(s: State, id: Id): (State, Outcome) {
    if id !in s.ifaces then (s, NoVm) else
    var r := s.ifaces[id];
    var nk := NatKey(r.vni, r.ip);
    if nk !in s.nats then (s, NotFound) else
    var v, nats := s.nats[nk], s.nats - {nk};
    var natIps := if StillUsed(s, id, nats, r.vni, v.natIp) then s.natIps else s.natIps - {VipKey(r.vni, v.natIp)};
    (s.(nats := nats, natIps := natIps, ct := s.ct - FlushKeys(s.ct, r.vni, r.ip, v)), Ok)
  }

  // ---------------------------------------------------------------- runs

  datatype Step =
    | PacketSnat(key: CtKey, n64: bool, now: u64)
    | PacketTouch(key: CtKey, now: u64, tcp: Option<bv8>)
    | PacketDefault(key: CtKey, now: u64, tcp: Option<bv8>)
    | Removal(keys: set<CtKey>)
    | AddIface(id: Id, vni: u32, ip: Ip4)
    | DropIface(id: Id, vniHasLb: bool)
    | AddNat(id: Id, natIp: Ip4, portMin: u16, portMax: u16)
    | DropNat(id: Id)

  function Apply(s: State, t: Step): State {
    match t
    case PacketSnat(k, n64, now) => Snat(s, k, n64, now).0
    case PacketTouch(k, now, tcp) => Touch(s, k, now, tcp)
    case PacketDefault(k, now, tcp) => EnsureDefault(s, k, now, tcp)
    case Removal(ks) => Evict(s, ks)
    case AddIface(id, vni, ip) => CreateIface(s, id, vni, ip).0
    case DropIface(id, lb) => DetachIface(s, id, lb).0
    case AddNat(id, natIp, lo, hi) => CreateNat(s, id, natIp, lo, hi).0
    case DropNat(id) => DeleteNat(s, id).0
  }

  function Run(s: State, steps: seq<Step>): State
    decreases |steps|
  {
    if steps == [] then s else Run(Apply(s, steps[0]), steps[1..])
  }

  const INIT := State(map[], map[], {}, map[])
}
