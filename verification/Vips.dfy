/** VIPs: what a hit does to a packet, the way back, and the control calls that keep the map two-way. */
module Vips {
  import opened Types
  import opened Bytes
  import opened Checksum
  import opened Maps
  import opened Packet
  import opened Rewrite
  import NatTable

  // ---------------------------------------------------------------- packets

  /** Where the map sends an address. */
  function Mapped(vips: map<VipKey, Ip4>, vni: u32, a: Ip4): Ip4 {
    if VipKey(vni, a) in vips then vips[VipKey(vni, a)] else a
  }

  /** Offset of the check value that covers addresses, for a transport header that is all there. */
  function CoverOff(p: seq<u8>, ip: nat): Option<nat>
    requires ip + 20 <= |p|
  {
    var l4 := ip + Ihl(p, ip);
    if p[ip + 9] == 6 && l4 + 18 <= |p| then Some(l4 + 16)
    else if p[ip + 9] == 17 && l4 + 8 <= |p| then Some(l4 + 6)
    else None
  }

  /** A byte a VIP rewrite may change: the address looked up and the two check values. */
  predicate MayChange(p: seq<u8>, ip: nat, isSrc: bool, i: nat)
    requires ip + 20 <= |p|
  {
    || (if isSrc then ip + 12 <= i < ip + 16 else ip + 16 <= i < ip + 20)
    || ip + 10 <= i < ip + 12
    || (CoverOff(p, ip).Some? && CoverOff(p, ip).value <= i < CoverOff(p, ip).value + 2)
  }

  /** On a hit only the address and the two check values change, whatever length the header claims. */
  lemma VipFrame(p: seq<u8>, ip: nat, vips: map<VipKey, Ip4>, vni: u32, isSrc: bool)
    requires ip + 20 <= |p|
    ensures var q := VipApplied(p, ip, vips, vni, isSrc);
            && |q| == |p|
            && (forall i | 0 <= i < |p| && !MayChange(p, ip, isSrc, i) :: q[i] == p[i])
            && (VipKey(vni, Addr(p, ip + if isSrc then 12 else 16)) !in vips ==> q == p)
  {
    hide Replace, CsumReplace4, CsumReplace2;
  }

  /**
   * A VIP rewrite maps the address it looked up, the source or the destination, and keeps the other
   * address, protocol, header length and both ports (or the identifier).
   */
  lemma VipFields(p: seq<u8>, ip: nat, vips: map<VipKey, Ip4>, vni: u32, isSrc: bool)
    requires ip + 20 <= |p| && Ihl(p, ip) >= 20
    ensures var q := VipApplied(p, ip, vips, vni, isSrc);
            && |q| == |p|
            && Addr(q, ip + 12) == (if isSrc then Mapped(vips, vni, Addr(p, ip + 12)) else Addr(p, ip + 12))
            && Addr(q, ip + 16) == (if isSrc then Addr(p, ip + 16) else Mapped(vips, vni, Addr(p, ip + 16)))
            && q[ip] == p[ip] && q[ip + 9] == p[ip + 9] && L4Ports(q, ip) == L4Ports(p, ip)
  {
    VipFrame(p, ip, vips, vni, isSrc);
    VipWritesAddr(p, ip, vips, vni, isSrc);
    KeptByFrame(p, VipApplied(p, ip, vips, vni, isSrc), ip, isSrc);
    hide VipApplied, MayChange, L4Ports, CoverOff;
  }

  /** What the bytes a rewrite keeps determine. */
  lemma KeptByFrame(p: seq<u8>, q: seq<u8>, ip: nat, isSrc: bool)
    requires ip + 20 <= |p| == |q| && Ihl(p, ip) >= 20
    requires forall i | 0 <= i < |p| && !MayChange(p, ip, isSrc, i) :: q[i] == p[i]
    ensures q[ip] == p[ip] && q[ip + 9] == p[ip + 9] && L4Ports(q, ip) == L4Ports(p, ip)
    ensures var o := ip + if isSrc then 16 else 12; Addr(q, o) == Addr(p, o)
  {
    assert !MayChange(p, ip, isSrc, ip) && !MayChange(p, ip, isSrc, ip + 9);
    var o := ip + if isSrc then 16 else 12;
    assert forall i | o <= i < o + 4 :: !MayChange(p, ip, isSrc, i);
    var l4 := ip + Ihl(p, ip);
    forall i | l4 <= i < l4 + 6 && i < |p| && (p[ip + 9] == 1 || i < l4 + 4)
      ensures q[i] == p[i]
    {
      assert !MayChange(p, ip, isSrc, i);
    }
    hide MayChange, CoverOff;
    if p[ip + 9] == 1 && l4 + 6 <= |p| {
      assert q[l4 + 4] == p[l4 + 4] && q[l4 + 5] == p[l4 + 5];
    } else if l4 + 4 <= |p| && p[ip + 9] != 1 {
      assert q[l4] == p[l4] && q[l4 + 1] == p[l4 + 1] && q[l4 + 2] == p[l4 + 2] && q[l4 + 3] == p[l4 + 3];
    }
  }

  lemma VipWritesAddr(p: seq<u8>, ip: nat, vips: map<VipKey, Ip4>, vni: u32, isSrc: bool)
    requires ip + 20 <= |p| && Ihl(p, ip) >= 20
    ensures var q, o := VipApplied(p, ip, vips, vni, isSrc), ip + if isSrc then 12 else 16;
            Addr(q, o) == Mapped(vips, vni, Addr(p, o))
  {
    hide Replace, CsumReplace4, CsumReplace2;
  }

  /**
   * The way back: a guest's packet leaves with its mapped source, and a packet to that address is rewritten for
   * the guest exactly when the map leads from it back to the guest. Ports are untouched both ways.
   */
  lemma VipRoundTripIff(p: seq<u8>, ip: nat, r: seq<u8>, ir: nat, vips: map<VipKey, Ip4>, vni: u32)
    requires ip + 20 <= |p| && Ihl(p, ip) >= 20 && ir + 20 <= |r| && Ihl(r, ir) >= 20
    requires Addr(r, ir + 16) == Addr(VipApplied(p, ip, vips, vni, true), ip + 12)
    ensures var back, guest := VipApplied(r, ir, vips, vni, false), Addr(p, ip + 12);
            && (Addr(back, ir + 16) == guest <==> Mapped(vips, vni, Mapped(vips, vni, guest)) == guest)
            && Addr(back, ir + 12) == Addr(r, ir + 12) && L4Ports(back, ir) == L4Ports(r, ir)
  {
    VipFields(p, ip, vips, vni, true);
    VipFields(r, ir, vips, vni, false);
    hide VipApplied, L4Ports;
  }

  // ---------------------------------------------------------------- the map

  datatype State = State(ifaces: map<Id, NatTable.Iface>, vips: map<VipKey, Ip4>)

  datatype Outcome = Ok | NoVm | Exists | Absent

  function GuestKey(s: State, id: Id): VipKey
    requires id in s.ifaces
  {
    VipKey(s.ifaces[id].vni, s.ifaces[id].ip)
  }

  /** Both directions: guest to VIP, VIP to guest. */
  function AddVip(s: State, id: Id, vip: Ip4): (State, Outcome) {
    if id !in s.ifaces then (s, NoVm) else
    var g := GuestKey(s, id);
    if g in s.vips then (s, Exists)
    else (s.(vips := s.vips[g := vip][VipKey(g.vni, vip) := g.ip]), Ok)
  }

  function DropVip(vips: map<VipKey, Ip4>, g: VipKey): map<VipKey, Ip4> {
    if g in vips then vips - {VipKey(g.vni, vips[g]), g} else vips
  }

  function RemoveVip(s: State, id: Id): (State, Outcome) {
    if id !in s.ifaces then (s, NoVm) else
    var g := GuestKey(s, id);
    if g !in s.vips then (s, Absent) else (s.(vips := DropVip(s.vips, g)), Ok)
  }

  /** Every mapping leads back. */
  ghost predicate TwoWay(vips: map<VipKey, Ip4>) {
    forall k | k in vips :: VipKey(k.vni, vips[k]) in vips && vips[VipKey(k.vni, vips[k])] == k.ip
  }

  /** In a two-way map every address comes back to itself, so every guest gets its replies. */
  lemma TwoWayReturns(vips: map<VipKey, Ip4>, vni: u32, a: Ip4)
    requires TwoWay(vips)
    ensures Mapped(vips, vni, Mapped(vips, vni, a)) == a
  {
  }

  /** The VIP is mapped to another address already. */
  predicate Used(vips: map<VipKey, Ip4>, v: VipKey) { v in vips && vips[v] != v.ip }

  /** A granted creation keeps the map two-way exactly when the VIP was not mapped to another address. */
  lemma CreateTwoWayIff(s: State, id: Id, vip: Ip4)
    requires TwoWay(s.vips) && AddVip(s, id, vip).1 == Ok
    ensures id in s.ifaces
    ensures TwoWay(AddVip(s, id, vip).0.vips) <==> !Used(s.vips, VipKey(s.ifaces[id].vni, vip))
  {
    var g, v := GuestKey(s, id), VipKey(s.ifaces[id].vni, vip);
    var vips := AddVip(s, id, vip).0.vips;
    assert vips[v] == g.ip && g in vips;
    if Used(s.vips, v) {
      var other := VipKey(v.vni, s.vips[v]);
      assert other in s.vips && s.vips[other] == vip && other != g && vips[other] == vip;
    } else {
      forall k | k in vips
        ensures VipKey(k.vni, vips[k]) in vips && vips[VipKey(k.vni, vips[k])] == k.ip
      {
        if k != g && k != v {
          var j := VipKey(k.vni, s.vips[k]);
          assert j in s.vips && s.vips[j] == k.ip && j != g && j != v;
        }
      }
    }
  }

  /** Removing an address with what it maps to keeps the map two-way. */
  lemma DropKeepsTwoWay(vips: map<VipKey, Ip4>, g: VipKey)
    requires TwoWay(vips)
    ensures TwoWay(DropVip(vips, g))
  {
    if g in vips {
      var left := DropVip(vips, g);
      forall k | k in left
        ensures VipKey(k.vni, left[k]) in left
      {
        var j := VipKey(k.vni, vips[k]);
        assert j in vips && vips[j] == k.ip;
      }
    }
  }

  /** Creating and deleting undo each other exactly when no mapping from the VIP existed. */
  lemma CreateDeleteVipIff(s: State, id: Id, vip: Ip4)
    requires AddVip(s, id, vip).1 == Ok
    ensures id in s.ifaces
    ensures RemoveVip(AddVip(s, id, vip).0, id).1 == Ok
    ensures RemoveVip(AddVip(s, id, vip).0, id).0 == s <==> VipKey(s.ifaces[id].vni, vip) !in s.vips
  {
    var g, v := GuestKey(s, id), VipKey(s.ifaces[id].vni, vip);
    var s1 := AddVip(s, id, vip).0;
    assert v !in RemoveVip(s1, id).0.vips;
    if v !in s.vips {
      assert DropVip(s1.vips, g) == s.vips;
    }
  }

  // ---------------------------------------------------------------- runs

  /** Calls on the map; the last interface of a VNI takes its own mapping along. */
  datatype Step =
    | Attach(id: Id, vni: u32, ip: Ip4)
    | Detach(id: Id, vniHasLb: bool)
    | Create(id: Id, vip: Ip4)
    | Delete(id: Id)

  function Apply(s: State, t: Step): State {
    match t
    case Attach(id, vni, ip) =>
      if id in s.ifaces || NatTable.InUse(s.ifaces, NatKey(vni, ip)) then s
      else s.(ifaces := s.ifaces[id := NatTable.Iface(vni, ip)])
    case Detach(id, lb) =>
      if id !in s.ifaces then s else
      var ifaces := s.ifaces - {id};
      var used := lb || exists j | j in ifaces :: ifaces[j].vni == s.ifaces[id].vni;
      State(ifaces, if used then s.vips else DropVip(s.vips, GuestKey(s, id)))
    case Create(id, vip) => AddVip(s, id, vip).0
    case Delete(id) => RemoveVip(s, id).0
  }

  function Run(s: State, steps: seq<Step>): State
    decreases |steps|
  {
    if steps == [] then s else Run(Apply(s, steps[0]), steps[1..])
  }

  /** The call does not create a VIP that is mapped to another address already. */
  predicate ClaimsNoUsed(s: State, t: Step) {
    t.Create? && AddVip(s, t.id, t.vip).1 == Ok ==>
      t.id in s.ifaces && !Used(s.vips, VipKey(s.ifaces[t.id].vni, t.vip))
  }

  predicate ClaimsNoUsedRun(s: State, steps: seq<Step>)
    decreases |steps|
  {
    steps == [] || (ClaimsNoUsed(s, steps[0]) && ClaimsNoUsedRun(Apply(s, steps[0]), steps[1..]))
  }

  ghost predicate AlwaysTwoWay(s: State, steps: seq<Step>)
    decreases |steps|
  {
    TwoWay(s.vips) && (steps == [] || AlwaysTwoWay(Apply(s, steps[0]), steps[1..]))
  }

  lemma StepTwoWayIff(s: State, t: Step)
    requires TwoWay(s.vips)
    ensures TwoWay(Apply(s, t).vips) <==> ClaimsNoUsed(s, t)
  {
    hide TwoWay, DropVip, NatTable.InUse;
    match t
    case Attach(_, _, _) =>
    case Detach(id, _) => if id in s.ifaces { DropKeepsTwoWay(s.vips, GuestKey(s, id)); }
    case Create(id, vip) => if AddVip(s, id, vip).1 == Ok { CreateTwoWayIff(s, id, vip); }
    case Delete(id) => if id in s.ifaces { DropKeepsTwoWay(s.vips, GuestKey(s, id)); }
  }

  /** Over every run the map stays two-way exactly when no creation claims a used address. */
  lemma {:induction false} AlwaysTwoWayIff(s: State, steps: seq<Step>)
    requires TwoWay(s.vips)
    ensures AlwaysTwoWay(s, steps) <==> ClaimsNoUsedRun(s, steps)
    decreases |steps|
  {
    hide TwoWay, ClaimsNoUsed, Apply;
    if steps != [] {
      StepTwoWayIff(s, steps[0]);
      if ClaimsNoUsed(s, steps[0]) {
        AlwaysTwoWayIff(Apply(s, steps[0]), steps[1..]);
      } else {
        NotTwoWayNow(Apply(s, steps[0]), steps[1..]);
      }
    }
  }

  lemma NotTwoWayNow(s: State, steps: seq<Step>)
    requires !TwoWay(s.vips)
    ensures !AlwaysTwoWay(s, steps)
  {
  }

  lemma {:induction false} EndsTwoWay(s: State, steps: seq<Step>)
    requires AlwaysTwoWay(s, steps)
    ensures TwoWay(Run(s, steps).vips)
    decreases |steps|
  {
    hide TwoWay, Apply;
    if steps != [] { EndsTwoWay(Apply(s, steps[0]), steps[1..]); }
  }

  /** Two guests of a VNI are given one VIP: its replies go to the second guest, the first gets none. */
  lemma SharedVipLosesReplies(s: State, first: Id, second: Id, vip: Ip4)
    requires first in s.ifaces && second in s.ifaces && s.ifaces[first].vni == s.ifaces[second].vni
    requires s.ifaces[first].ip != s.ifaces[second].ip && vip != s.ifaces[first].ip && vip != s.ifaces[second].ip
    requires GuestKey(s, first) !in s.vips && GuestKey(s, second) !in s.vips
    ensures var s1 := AddVip(s, first, vip).0;
            var (s2, r) := AddVip(s1, second, vip);
            var vni := s.ifaces[first].vni;
            && r == Ok && Mapped(s2.vips, vni, s.ifaces[first].ip) == vip
            && Mapped(s2.vips, vni, vip) == s.ifaces[second].ip
  {
  }

  /**
   * End to end from an empty map: after any run whose creations claim no used address, a packet from a
   * guest and any packet to the source it left with are each other's inverse.
   */
  lemma VipReturnsOverRuns(steps: seq<Step>, p: seq<u8>, ip: nat, r: seq<u8>, ir: nat, vni: u32)
    requires ClaimsNoUsedRun(State(map[], map[]), steps)
    requires ip + 20 <= |p| && Ihl(p, ip) >= 20 && ir + 20 <= |r| && Ihl(r, ir) >= 20
    requires Addr(r, ir + 16) == Addr(VipApplied(p, ip, Run(State(map[], map[]), steps).vips, vni, true), ip + 12)
    ensures Addr(VipApplied(r, ir, Run(State(map[], map[]), steps).vips, vni, false), ir + 16) == Addr(p, ip + 12)
  {
    var none := State(map[], map[]);
    assert TwoWay(none.vips);
    var vips := Run(none, steps).vips;
    hide *;
    AlwaysTwoWayIff(none, steps);
    EndsTwoWay(none, steps);
    VipRoundTripIff(p, ip, r, ir, vips, vni);
    TwoWayReturns(vips, vni, Addr(p, ip + 12));
  }

  // ---------------------------------------------------------------- the control object

  class VipTable {
    var ifaces: map<Id, NatTable.Iface>
    var vips: map<VipKey, Ip4>

    function St(): State
      reads this
    {
      State(ifaces, vips)
    }

    constructor (known: map<Id, NatTable.Iface>)
      ensures St() == State(known, map[])
    {
      ifaces, vips := known, map[];
    }

    method CreateVip(id: Id, vip: Ip4) returns (r: Outcome)
      modifies this`vips
      ensures (St(), r) == AddVip(old(St()), id, vip)
    {
      if id !in ifaces { return NoVm; }
      var vni, gip := ifaces[id].vni, ifaces[id].ip;
      if VipKey(vni, gip) in vips { return Exists; }
      vips := vips[VipKey(vni, gip) := vip];
      vips := vips[VipKey(vni, vip) := gip];
      r := Ok;
    }

    method DeleteVip(id: Id) returns (r: Outcome)
      modifies this`vips
      ensures (St(), r) == RemoveVip(old(St()), id)
    {
      if id !in ifaces { return NoVm; }
      var vni, gip := ifaces[id].vni, ifaces[id].ip;
      if VipKey(vni, gip) !in vips { return Absent; }
      var vip := vips[VipKey(vni, gip)];
      vips := vips - {VipKey(vni, vip)};
      vips := vips - {VipKey(vni, gip)};
      assert vips == DropVip(old(vips), VipKey(vni, gip));
      r := Ok;
    }
  }
}
