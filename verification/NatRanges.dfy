/** Which port ranges may be granted: exactly those after which no run lets two guests share a port. */
module NatRanges {
  import opened Types
  import opened Maps
  import opened NatTable
  import opened NatProofs

  /** No two guests of a VNI leave from the same address and port. */
  ghost predicate Unshared(ct: map<CtKey, CtEntry>) {
    forall j, k | j in ct && k in ct :: !PortShared(j, ct[j], k, ct[k])
  }

  ghost predicate StaysUnshared(s: State) {
    forall steps: seq<Step> | AllowedRun(s, steps) :: Unshared(Run(s, steps).ct)
  }

  lemma StaysNow(s: State)
    requires StaysUnshared(s)
    ensures Unshared(s.ct)
  {
    assert AllowedRun(s, []) && Run(s, []) == s;
  }

  lemma StaysAfter(s: State, t: Step)
    requires StaysUnshared(s) && Allowed(s, t)
    ensures StaysUnshared(Apply(s, t))
  {
    hide Apply, Allowed, Unshared;
    forall steps: seq<Step> | AllowedRun(Apply(s, t), steps)
      ensures Unshared(Run(Apply(s, t), steps).ct)
    {
      RunCons(s, t, steps);
      AllowedCons(s, t, steps);
    }
  }

  lemma AllowedCons(s: State, t: Step, rest: seq<Step>)
    requires Allowed(s, t) && AllowedRun(Apply(s, t), rest)
    ensures AllowedRun(s, [t] + rest)
  {
    hide Apply, Allowed;
    assert ([t] + rest)[1..] == rest;
  }

  // ---------------------------------------------------------------- the one harmless reversed range

  /** The ports a configuration hands out, the reversed range [65535, 0) included. */
  predicate Hands(v: NatValue, port: u16) {
    v.portMin <= port < v.portMax || (v.portMin == 65535 && v.portMax == 0 && port == 65535)
  }

  predicate HandedOut(nats: map<NatKey, NatValue>, k: CtKey, e: CtEntry) {
    var nk := NatKey(k.vni, k.src);
    nk in nats && nats[nk].natIp == e.xlateIp && Hands(nats[nk], e.xlatePort)
  }

  ghost predicate ForwardHanded(nats: map<NatKey, NatValue>, ct: map<CtKey, CtEntry>) {
    forall k | k in ct && Has(ct[k].flags, CT_REWRITE_SRC) :: HandedOut(nats, k, ct[k])
  }

  /** All ranges are proper, but one guest may have [65535, 0). */
  ghost predicate OneTop(nats: map<NatKey, NatValue>, top: NatKey) {
    && (forall a | a in nats && a != top :: nats[a].portMin <= nats[a].portMax)
    && (top in nats ==>
          nats[top].portMin <= nats[top].portMax || (nats[top].portMin == 65535 && nats[top].portMax == 0))
  }

  /** Proper ranges on one address do not meet. */
  ghost predicate ProperDisjoint(nats: map<NatKey, NatValue>) {
    forall a, b | a in nats && b in nats && a != b && a.vni == b.vni && nats[a].natIp == nats[b].natIp
                  && nats[a].portMin <= nats[a].portMax && nats[b].portMin <= nats[b].portMax ::
      nats[a].portMax <= nats[b].portMin || nats[b].portMax <= nats[a].portMin
  }

  ghost predicate TopInv(s: State, top: NatKey) {
    && ForwardHanded(s.nats, s.ct) && OneTop(s.nats, top) && ProperDisjoint(s.nats)
    && NatsAttached(s) && IfacesUnique(s.ifaces)
  }

  lemma TopIsUnshared(s: State, top: NatKey)
    requires TopInv(s, top)
    ensures Unshared(s.ct)
  {
    hide Has, NatsAttached, IfacesUnique;
    forall j, k | j in s.ct && k in s.ct
      ensures !PortShared(j, s.ct[j], k, s.ct[k])
    {
      if Has(s.ct[j].flags, CT_REWRITE_SRC) && Has(s.ct[k].flags, CT_REWRITE_SRC) {
        assert HandedOut(s.nats, j, s.ct[j]) && HandedOut(s.nats, k, s.ct[k]);
      }
    }
  }

  /** Every candidate is a port the configuration hands out. */
  lemma CandidateHanded(v: NatValue, start: u16, i: nat)
    requires Range(v) != 0 && (v.portMin <= v.portMax || (v.portMin == 65535 && v.portMax == 0))
    ensures Hands(v, Candidate(v, start, i))
  {
    CandidateInRangeIff(v, start, i);
    if v.portMin == 65535 && v.portMax == 0 { OnePort(v, start); }
    hide Candidate, Range;
  }

  lemma AllocHanded(ct: map<CtKey, CtEntry>, k: CtKey, v: NatValue, n64: bool, now: u64)
    requires Range(v) != 0 && (v.portMin <= v.portMax || (v.portMin == 65535 && v.portMax == 0))
    ensures Hands(v, Alloc(ct, k, v, n64, now).1)
  {
    var start := StartSlot(k, v);
    FirstFreeSound(ct, k, v, start, 0);
    CandidateHanded(v, start, 0);
    var r := FirstFree(ct, k, v, start, 0);
    if r.Some? {
      var j :| 0 <= j < PROBE_LIMIT && r.value == Candidate(v, start, j);
      CandidateHanded(v, start, j);
    }
    hide StartSlot, Candidate, FirstFree, Hands, Range;
  }

  lemma SnatKeepsTop(s: State, top: NatKey, k: CtKey, n64: bool, now: u64)
    requires TopInv(s, top)
    ensures TopInv(Snat(s, k, n64, now).0, top)
  {
    var nk := NatKey(k.vni, k.src);
    if nk in s.nats && Range(s.nats[nk]) != 0 && !Tracked(s.ct, k) {
      AllocHanded(s.ct, k, s.nats[nk], n64, now);
      hide Hands, Has, StartSlot, Candidate, FirstFree, Range, ProperDisjoint, NatsAttached, IfacesUnique, OneTop;
      var s' := Snat(s, k, n64, now).0;
      assert HandedOut(s'.nats, k, s'.ct[k]);
    }
  }

  /** Steps that change no configuration and add no forward entry. */
  lemma TrackingKeepsTop(s: State, top: NatKey, t: Step)
    requires TopInv(s, top) && (t.PacketTouch? || t.PacketDefault? || t.Removal?)
    ensures TopInv(Apply(s, t), top)
  {
    assert !Has(CT_F_DEFAULT, CT_REWRITE_SRC);
    hide Has, Hands, ProperDisjoint, IfacesUnique, OneTop;
    var s' := Apply(s, t);
    forall k | k in s'.ct && Has(s'.ct[k].flags, CT_REWRITE_SRC)
      ensures HandedOut(s'.nats, k, s'.ct[k])
    {
      assert HandedOut(s.nats, k, s.ct[k]);
    }
  }

  lemma AddIfaceKeepsTop(s: State, top: NatKey, id: Id, vni: u32, ip: Ip4)
    requires TopInv(s, top)
    ensures TopInv(CreateIface(s, id, vni, ip).0, top)
  {
    hide ForwardHanded, ProperDisjoint, OneTop;
    var s' := CreateIface(s, id, vni, ip).0;
    forall a | a in s'.nats
      ensures InUse(s'.ifaces, a)
    {
      var i :| i in s.ifaces && IfaceAt(s.ifaces, i, a);
      assert IfaceAt(s'.ifaces, i, a);
    }
    forall i, j | i in s'.ifaces && j in s'.ifaces && s'.ifaces[i] == s'.ifaces[j]
      ensures i == j
    {
      assert i in s.ifaces && s.ifaces[i] == Iface(vni, ip) ==> IfaceAt(s.ifaces, i, NatKey(vni, ip));
      assert j in s.ifaces && s.ifaces[j] == Iface(vni, ip) ==> IfaceAt(s.ifaces, j, NatKey(vni, ip));
    }
  }

  lemma DropIfaceKeepsTop(s: State, top: NatKey, id: Id, lb: bool)
    requires TopInv(s, top) && Allowed(s, DropIface(id, lb))
    ensures TopInv(DetachIface(s, id, lb).0, top)
  {
    hide ForwardHanded, ProperDisjoint, OneTop;
    if id in s.ifaces {
      var s' := DetachIface(s, id, lb).0;
      assert s'.nats == s.nats;
      forall a | a in s'.nats
        ensures InUse(s'.ifaces, a)
      {
        var i :| i in s.ifaces && IfaceAt(s.ifaces, i, a);
        assert IfaceAt(s'.ifaces, i, a);
      }
    }
  }

  /** A new NAT entry takes no port away from a flow. */
  lemma HandedGrows(nats: map<NatKey, NatValue>, nk: NatKey, v: NatValue, ct: map<CtKey, CtEntry>)
    requires nk !in nats && ForwardHanded(nats, ct)
    ensures ForwardHanded(nats[nk := v], ct)
  {
    hide Has, Hands;
    forall k | k in ct && Has(ct[k].flags, CT_REWRITE_SRC)
      ensures HandedOut(nats[nk := v], k, ct[k])
    {
      assert HandedOut(nats, k, ct[k]);
    }
  }

  lemma AttachedGrows(s: State, s': State, id: Id)
    requires NatsAttached(s) && id in s.ifaces && s'.ifaces == s.ifaces
    requires s'.nats.Keys == s.nats.Keys + {NatKey(s.ifaces[id].vni, s.ifaces[id].ip)}
    ensures NatsAttached(s')
  {
    assert IfaceAt(s.ifaces, id, NatKey(s.ifaces[id].vni, s.ifaces[id].ip));
  }

  lemma CreateNatKeepsRest(s: State, id: Id, natIp: Ip4, lo: u16, hi: u16)
    ensures var s' := CreateNat(s, id, natIp, lo, hi).0; s'.ct == s.ct && s'.ifaces == s.ifaces
    ensures CreateNat(s, id, natIp, lo, hi).1 == Ok ==>
              id in s.ifaces && NatKey(s.ifaces[id].vni, s.ifaces[id].ip) !in s.nats
    ensures CreateNat(s, id, natIp, lo, hi).1 != Ok ==> CreateNat(s, id, natIp, lo, hi).0 == s
  {
    hide Overlaps;
  }

  lemma AddNatKeepsTop(s: State, top: NatKey, id: Id, natIp: Ip4, lo: u16, hi: u16)
    requires TopInv(s, top) && lo <= hi
    ensures TopInv(CreateNat(s, id, natIp, lo, hi).0, top)
  {
    hide *;
    CreateNatKeepsRest(s, id, natIp, lo, hi);
    if CreateNat(s, id, natIp, lo, hi).1 == Ok {
      CreateNatGranted(s, id, natIp, lo, hi);
      AddNatDisjoint(s, top, id, natIp, lo, hi);
      var s', nk := CreateNat(s, id, natIp, lo, hi).0, NatKey(s.ifaces[id].vni, s.ifaces[id].ip);
      TopParts(s, top);
      HandedGrows(s.nats, nk, NatValue(natIp, lo, hi), s.ct);
      OneTopGrows(s.nats, top, nk, NatValue(natIp, lo, hi));
      AttachedGrows(s, s', id);
      TopParts(s', top);
    }
  }

  lemma TopParts(s: State, top: NatKey)
    ensures TopInv(s, top) <==> && ForwardHanded(s.nats, s.ct) && OneTop(s.nats, top) && ProperDisjoint(s.nats)
                                && NatsAttached(s) && IfacesUnique(s.ifaces)
  {
  }

  lemma OneTopGrows(nats: map<NatKey, NatValue>, top: NatKey, nk: NatKey, v: NatValue)
    requires OneTop(nats, top) && v.portMin <= v.portMax
    ensures OneTop(nats[nk := v], top)
  {
  }

  lemma AddNatDisjoint(s: State, top: NatKey, id: Id, natIp: Ip4, lo: u16, hi: u16)
    requires TopInv(s, top) && lo <= hi && CreateNat(s, id, natIp, lo, hi).1 == Ok
    ensures ProperDisjoint(CreateNat(s, id, natIp, lo, hi).0.nats)
  {
    CreateNatGranted(s, id, natIp, lo, hi);
    hide CreateNat, Overlaps, ForwardHanded, IfacesUnique, OneTop;
    var r := s.ifaces[id];
    forall b | b in s.nats && b.vni == r.vni && s.nats[b].natIp == natIp
      ensures hi <= s.nats[b].portMin || s.nats[b].portMax <= lo
    {
      var i :| i in s.ifaces && IfaceAt(s.ifaces, i, b);
      assert !OverlapsAt(s, i, r.vni, natIp, lo, hi);
    }
  }

  lemma DropNatKeepsTop(s: State, top: NatKey, id: Id)
    requires TopInv(s, top)
    ensures TopInv(DeleteNat(s, id).0, top)
  {
    if DeleteNat(s, id).1 == Ok {
      var r := s.ifaces[id];
      var nk, s' := NatKey(r.vni, r.ip), DeleteNat(s, id).0;
      assert s'.nats == s.nats - {nk} && s'.ifaces == s.ifaces;
      hide Has, Hands, IfacesUnique, StillUsed;
      forall k | k in s'.ct && Has(s'.ct[k].flags, CT_REWRITE_SRC)
        ensures HandedOut(s'.nats, k, s'.ct[k])
      {
        assert HandedOut(s.nats, k, s.ct[k]) && NatKey(k.vni, k.src) != nk;
      }
    }
  }

  lemma StepKeepsTop(s: State, top: NatKey, t: Step)
    requires TopInv(s, top) && Allowed(s, t)
    ensures TopInv(Apply(s, t), top)
  {
    hide TopInv;
    match t
    case PacketSnat(k, n64, now) => SnatKeepsTop(s, top, k, n64, now);
    case PacketTouch(_, _, _) => TrackingKeepsTop(s, top, t);
    case PacketDefault(_, _, _) => TrackingKeepsTop(s, top, t);
    case Removal(_) => TrackingKeepsTop(s, top, t);
    case AddIface(id, vni, ip) => AddIfaceKeepsTop(s, top, id, vni, ip);
    case DropIface(id, lb) => DropIfaceKeepsTop(s, top, id, lb);
    case AddNat(id, natIp, lo, hi) => AddNatKeepsTop(s, top, id, natIp, lo, hi);
    case DropNat(id) => DropNatKeepsTop(s, top, id);
  }

  lemma {:induction false} RunKeepsTop(s: State, top: NatKey, steps: seq<Step>)
    requires TopInv(s, top) && AllowedRun(s, steps)
    ensures TopInv(Run(s, steps), top)
    decreases |steps|
  {
    hide TopInv, Apply, Allowed;
    if steps != [] {
      StepKeepsTop(s, top, steps[0]);
      RunKeepsTop(Apply(s, steps[0]), top, steps[1..]);
    }
  }

  lemma TopStaysUnshared(s: State, top: NatKey)
    requires TopInv(s, top)
    ensures StaysUnshared(s)
  {
    hide TopInv, Unshared, Run, AllowedRun;
    forall steps: seq<Step> | AllowedRun(s, steps)
      ensures Unshared(Run(s, steps).ct)
    {
      RunKeepsTop(s, top, steps);
      TopIsUnshared(Run(s, steps), top);
    }
  }

  // ---------------------------------------------------------------- every other reversed range

  /** A guest's flow is on a port below 65535 of a public address, and its range on that address is reversed. */
  predicate OnPort(s: State, k: CtKey, p: u16) {
    var nk := NatKey(k.vni, k.src);
    && k in s.ct && Has(s.ct[k].flags, CT_REWRITE_SRC) && !Has(s.ct[k].flags, CT_REWRITE_DST)
    && s.ct[k].xlatePort == p && p < 65535 && k.sport == 1
    && nk in s.nats && s.nats[nk].natIp == s.ct[k].xlateIp && s.nats[nk].portMax < s.nats[nk].portMin
  }

  /** A second guest has exactly the port: clear the table but for the first flow, and let it send. */
  lemma SecondGuestSends(s: State, k: CtKey, p: u16, ip: Ip4)
    requires OnPort(s, k, p) && ip != k.src
    requires NatKey(k.vni, ip) in s.nats && s.nats[NatKey(k.vni, ip)] == NatValue(s.ct[k].xlateIp, p, p + 1)
    ensures !StaysUnshared(s)
  {
    var b := CtKey(k.vni, ip, ANY_IP4, 1, 1, k.proto);
    var t0, t1 := Removal(s.ct.Keys - {k}), PacketSnat(b, false, 0);
    var s1 := Apply(s, t0);
    assert s1.ct == map[k := s.ct[k]] && s1.nats == s.nats;
    LonePort(s1, b, p);
    var ct := Apply(s1, t1).ct;
    assert PortShared(k, ct[k], b, ct[b]);
    hide Apply, PortShared, Has;
    if StaysUnshared(s) {
      StaysAfter(s, t0);
      StaysAfter(s1, t1);
      StaysNow(Apply(s1, t1));
    }
  }

  lemma LonePort(s: State, b: CtKey, p: u16)
    requires NatKey(b.vni, b.src) in s.nats && b !in s.ct && p < 65535
    requires var v := s.nats[NatKey(b.vni, b.src)];
             v.portMin == p && v.portMax == p + 1 && RevKey(b.vni, v.natIp, p, b.proto) !in s.ct
    requires b.sport == 1
    ensures var s' := Apply(s, PacketSnat(b, false, 0));
            && b in s'.ct && s'.ct[b] == FwdEntry(s.nats[NatKey(b.vni, b.src)], p, false, 0)
            && forall j | j in s.ct :: j in s'.ct && s'.ct[j] == s.ct[j]
  {
    var v := s.nats[NatKey(b.vni, b.src)];
    LoneCandidate(v, StartSlot(b, v));
    FirstFreeSound(s.ct, b, v, StartSlot(b, v), 0);
    hide StartSlot, Candidate, Range, FirstFree, Has;
    assert RevKey(b.vni, v.natIp, Candidate(v, StartSlot(b, v), 0), b.proto) !in s.ct;
  }

  lemma LoneCandidate(v: NatValue, start: u16)
    requires v.portMax == v.portMin + 1
    ensures Range(v) == 1 && forall i: nat :: Candidate(v, start, i) == v.portMin
  {
  }

  /** Another interface of the VNI whose NAT, if any, may be the only other one that covers the port. */
  predicate CanTake(s: State, id: Id, j: Id, natIp: Ip4, p: u16) {
    && p < 65535 && id in s.ifaces && j in s.ifaces && j != id && s.ifaces[j].vni == s.ifaces[id].vni
    && s.ifaces[j].ip != s.ifaces[id].ip
    && forall i | i in s.ifaces && i != j && i != id :: !OverlapsAt(s, i, s.ifaces[id].vni, natIp, p, p + 1)
  }

  /** Free the second interface's NAT, give it [p, p + 1), and let it send. */
  lemma SecondGuestTakes(s: State, k: CtKey, p: u16, id: Id, j: Id)
    requires OnPort(s, k, p) && id in s.ifaces && s.ifaces[id] == Iface(k.vni, k.src)
    requires IfacesUnique(s.ifaces) && p + 1 < 0x1_0000 && CanTake(s, id, j, s.ct[k].xlateIp, p)
    ensures !StaysUnshared(s)
  {
    var natIp, ip := s.ct[k].xlateIp, s.ifaces[j].ip;
    var t0, t1 := DropNat(j), AddNat(j, natIp, p, p + 1);
    var s1 := Apply(s, t0);
    DropKeeps(s, k, p, j);
    NoOverlap(s, s1, k, p, id, j);
    var s2 := Apply(s1, t1);
    assert s2.nats == s1.nats[NatKey(k.vni, ip) := NatValue(natIp, p, p + 1)] && s2.ct == s1.ct by {
      hide OnPort, CanTake, OverlapsAt;
    }
    if StaysUnshared(s) {
      StaysAfter(s, t0);
      StaysAfter(s1, t1);
      hide StaysUnshared, Apply, CanTake, Has;
      SecondGuestSends(s2, k, p, ip);
    }
  }

  /** Deleting another guest's NAT leaves the first flow alone. */
  lemma DropKeeps(s: State, k: CtKey, p: u16, j: Id)
    requires OnPort(s, k, p) && j in s.ifaces && s.ifaces[j].vni == k.vni && s.ifaces[j].ip != k.src
    ensures var s1 := DeleteNat(s, j).0;
            && OnPort(s1, k, p) && s1.ct[k] == s.ct[k] && s1.ifaces == s.ifaces
            && s1.nats == s.nats - {NatKey(k.vni, s.ifaces[j].ip)}
  {
    hide Has, StillUsed;
  }

  /** Only the second interface's NAT could stand in the way of [p, p + 1). */
  lemma NoOverlap(s: State, s1: State, k: CtKey, p: u16, id: Id, j: Id)
    requires OnPort(s, k, p) && id in s.ifaces && s.ifaces[id] == Iface(k.vni, k.src) && p + 1 < 0x1_0000
    requires IfacesUnique(s.ifaces) && CanTake(s, id, j, s.ct[k].xlateIp, p)
    requires s1.ifaces == s.ifaces && s1.nats == s.nats - {NatKey(k.vni, s.ifaces[j].ip)}
    ensures !Overlaps(s1, k.vni, s.ct[k].xlateIp, p, p + 1)
  {
    hide Has;
    forall i | i in s1.ifaces
      ensures !OverlapsAt(s1, i, k.vni, s.ct[k].xlateIp, p, p + 1)
    {
      if i != id && i != j {
        assert !OverlapsAt(s, i, k.vni, s.ct[k].xlateIp, p, p + 1);
      }
    }
  }

  /** The configuration around one guest whose range may be reversed. */
  ghost predicate Around(s: State, top: NatKey) {
    && (forall a | a in s.nats && a != top :: s.nats[a].portMin <= s.nats[a].portMax)
    && ProperDisjoint(s.nats) && NatsAttached(s) && IfacesUnique(s.ifaces)
  }

  /** Whoever covers the port is the only one, so some interface can take it over. */
  lemma CovererCanTake(s: State, k: CtKey, p: u16, id: Id, j: Id)
    requires OnPort(s, k, p) && id in s.ifaces && s.ifaces[id] == Iface(k.vni, k.src) && Around(s, NatKey(k.vni, k.src))
    requires j in s.ifaces && j != id && s.ifaces[j].vni == k.vni && p + 1 < 0x1_0000
    requires OverlapsAt(s, j, k.vni, s.ct[k].xlateIp, p, p + 1)
          || forall i | i in s.ifaces && i != id :: !OverlapsAt(s, i, k.vni, s.ct[k].xlateIp, p, p + 1)
    ensures CanTake(s, id, j, s.ct[k].xlateIp, p)
  {
    hide Has, NatsAttached;
    assert s.ifaces[j] != s.ifaces[id];
    forall i | i in s.ifaces && i != j && i != id
      ensures !OverlapsAt(s, i, k.vni, s.ct[k].xlateIp, p, p + 1)
    {
      assert s.ifaces[i] != s.ifaces[j] && s.ifaces[i] != s.ifaces[id];
      ProperOnlyOne(s, k, p, i, j);
    }
  }

  /** Two proper ranges on one address do not both cover a port. */
  lemma ProperOnlyOne(s: State, k: CtKey, p: u16, i: Id, j: Id)
    requires i in s.ifaces && j in s.ifaces && s.ifaces[i] != s.ifaces[j] && k in s.ct && p < 65535
    requires ProperDisjoint(s.nats) && s.ifaces[i] != Iface(k.vni, k.src) && s.ifaces[j] != Iface(k.vni, k.src)
    requires forall a | a in s.nats && a != NatKey(k.vni, k.src) :: s.nats[a].portMin <= s.nats[a].portMax
    ensures OverlapsAt(s, j, k.vni, s.ct[k].xlateIp, p, p + 1) ==> !OverlapsAt(s, i, k.vni, s.ct[k].xlateIp, p, p + 1)
  {
    var a, b := NatKey(k.vni, s.ifaces[i].ip), NatKey(k.vni, s.ifaces[j].ip);
    assert s.ifaces[i].vni == k.vni && s.ifaces[j].vni == k.vni ==> a != b;
  }

  lemma {:induction false} LongerThanAll(ids: set<Id>) returns (id: Id)
    ensures forall i | i in ids :: |i| < |id|
    decreases |ids|
  {
    if ids == {} {
      id := [];
    } else {
      var i :| i in ids;
      var rest := LongerThanAll(ids - {i});
      id := seq(|i| + |rest| + 1, _ => 0);
      assert forall x | x in ids :: x == i || x in ids - {i};
    }
  }

  /** From a flow on a port of a reversed range, some run makes a second guest use the port. */
  lemma FlowGetsShared(s: State, k: CtKey, p: u16, id: Id)
    requires OnPort(s, k, p) && id in s.ifaces && s.ifaces[id] == Iface(k.vni, k.src) && Around(s, NatKey(k.vni, k.src))
    ensures !StaysUnshared(s)
  {
    hide Has, ProperDisjoint, NatsAttached, StaysUnshared, OverlapsAt;
    var natIp := s.ct[k].xlateIp;
    if j :| j in s.ifaces && j != id && OverlapsAt(s, j, k.vni, natIp, p, p + 1) {
      CoversInVni(s, j, k.vni, natIp, p);
      CovererCanTake(s, k, p, id, j);
      SecondGuestTakes(s, k, p, id, j);
    } else if j :| j in s.ifaces && j != id && s.ifaces[j].vni == k.vni {
      CovererCanTake(s, k, p, id, j);
      SecondGuestTakes(s, k, p, id, j);
    } else {
      NewGuestTakes(s, k, p, id);
    }
  }

  lemma CoversInVni(s: State, j: Id, vni: u32, natIp: Ip4, p: u16)
    requires j in s.ifaces && p + 1 < 0x1_0000 && OverlapsAt(s, j, vni, natIp, p, p + 1)
    ensures s.ifaces[j].vni == vni
  {
  }

  /** No other interface in the VNI: attach one first. */
  lemma NewGuestTakes(s: State, k: CtKey, p: u16, id: Id)
    requires OnPort(s, k, p) && id in s.ifaces && s.ifaces[id] == Iface(k.vni, k.src) && IfacesUnique(s.ifaces)
    requires forall j | j in s.ifaces && j != id :: s.ifaces[j].vni != k.vni
    ensures !StaysUnshared(s)
  {
    var ip := if k.src == ANY_IP4 then Ip4(0, 0, 0, 1) else ANY_IP4;
    var j := LongerThanAll(s.ifaces.Keys);
    assert j !in s.ifaces.Keys;
    var t := AddIface(j, k.vni, ip);
    assert !InUse(s.ifaces, NatKey(k.vni, ip));
    var s1 := Apply(s, t);
    assert s1.ifaces == s.ifaces[j := Iface(k.vni, ip)] && s1.ct == s.ct && s1.nats == s.nats;
    hide Has, Apply;
    assert OnPort(s1, k, p);
    if StaysUnshared(s) {
      StaysAfter(s, t);
      SecondGuestTakes(s1, k, p, id, j);
    }
  }

  /** Two neighbouring candidates of a range with more than one port differ. */
  lemma TwoCandidates(v: NatValue, start: u16)
    requires Range(v) > 1 && start < Range(v)
    ensures Candidate(v, start, 0) != Candidate(v, start, 1)
  {
    var r := Range(v);
    var x := (start + 1) % 0x1_0000 % r;
    SlotsDiffer(r, start);
    SumsDiffer(v.portMin, start, x);
    assert Candidate(v, start, 0) == (v.portMin + start) % 0x1_0000;
    hide Range;
  }

  lemma SlotsDiffer(r: u16, start: u16)
    requires r > 1 && start < r
    ensures (start + 0) % 0x1_0000 % r == start && 0 <= (start + 1) % 0x1_0000 % r < r
    ensures (start + 1) % 0x1_0000 % r != start
  {
    SmallMod(start, 0x1_0000);
    SmallMod(start + 1, 0x1_0000);
    SmallMod(start, r);
    if start + 1 < r { SmallMod(start + 1, r); } else { FullMod(r); }
  }

  lemma SmallMod(x: nat, n: nat)
    requires x < n
    ensures x % n == x
  {
  }

  lemma FullMod(n: nat)
    requires n > 0
    ensures n % n == 0
  {
  }

  lemma SumsDiffer(m: u16, x: u16, y: u16)
    requires x != y
    ensures (m + x) % 0x1_0000 != (m + y) % 0x1_0000
  {
  }

  /** With all but port 65535 free, a range with more than one port yields another port. */
  lemma AvoidsTop(s: State, k: CtKey)
    requires NatKey(k.vni, k.src) in s.nats && Range(s.nats[NatKey(k.vni, k.src)]) > 1 && k !in s.ct
    requires var v := s.nats[NatKey(k.vni, k.src)];
             && RevKey(k.vni, v.natIp, 65535, k.proto) in s.ct
             && forall p: u16 | p < 65535 :: RevKey(k.vni, v.natIp, p, k.proto) !in s.ct
    requires k.sport == 1
    ensures var s' := Snat(s, k, false, 0).0;
            var v := s.nats[NatKey(k.vni, k.src)];
            s'.nats == s.nats && k in s'.ct && exists p: u16 :: p < 65535 && s'.ct[k] == FwdEntry(v, p, false, 0)
  {
    var v := s.nats[NatKey(k.vni, k.src)];
    var start := StartSlot(k, v);
    TwoCandidates(v, start);
    FirstFreeSound(s.ct, k, v, start, 0);
    hide StartSlot, Candidate, Range, FirstFree, Has;
    var c0, c1 := Candidate(v, start, 0), Candidate(v, start, 1);
    assert c0 < 65535 || c1 < 65535;
    var f := FirstFree(s.ct, k, v, start, 0);
    assert f.Some? && f.value < 65535;
    assert Snat(s, k, false, 0).0.ct[k] == FwdEntry(v, f.value, false, 0);
  }

  /** From any reversed range but [65535, 0): clear the table, take port 65535 away, and let the guest send. */
  lemma ReversedGetsShared(s: State, id: Id)
    requires id in s.ifaces && NatKey(s.ifaces[id].vni, s.ifaces[id].ip) in s.nats
    requires Around(s, NatKey(s.ifaces[id].vni, s.ifaces[id].ip))
    requires var v := s.nats[NatKey(s.ifaces[id].vni, s.ifaces[id].ip)];
             v.portMax < v.portMin && !(v.portMin == 65535 && v.portMax == 0)
    ensures !StaysUnshared(s)
  {
    var r := s.ifaces[id];
    var v := s.nats[NatKey(r.vni, r.ip)];
    var k := CtKey(r.vni, r.ip, ANY_IP4, 1, 1, 6);
    var rk := RevKey(r.vni, v.natIp, 65535, 6);
    var t0, t1, t2 := Removal(s.ct.Keys), PacketDefault(rk, 0, None), PacketSnat(k, false, 0);
    var s1 := Apply(s, t0);
    assert s1.ct == map[] && s1.nats == s.nats && s1.ifaces == s.ifaces;
    OnlyTop(s1, rk);
    var s2 := Apply(s1, t1);
    assert Range(v) > 1;
    AvoidsTop(s2, k);
    var s3 := Apply(s2, t2);
    if StaysUnshared(s) {
      StaysAfter(s, t0);
      StaysAfter(s1, t1);
      StaysAfter(s2, t2);
      SnatKeepsConfig(s2, k);
      var p: u16 :| p < 65535 && s3.ct[k] == FwdEntry(v, p, false, 0);
      hide StaysUnshared, Apply, Has, Around;
      AroundSame(s, s3, NatKey(r.vni, r.ip));
      FlowGetsShared(s3, k, p, id);
    }
  }

  lemma OnlyTop(s: State, rk: CtKey)
    requires s.ct == map[] && rk.sport == 0
    ensures var s' := Apply(s, PacketDefault(rk, 0, None));
            && s'.nats == s.nats && s'.ifaces == s.ifaces && rk in s'.ct
            && forall j | j in s'.ct :: j == rk || j == InvertKey(rk)
  {
  }

  lemma SnatKeepsConfig(s: State, k: CtKey)
    ensures Snat(s, k, false, 0).0.ifaces == s.ifaces && Snat(s, k, false, 0).0.nats == s.nats
    ensures Apply(s, PacketSnat(k, false, 0)) == Snat(s, k, false, 0).0
  {
    hide Alloc;
  }

  lemma AroundSame(s: State, s': State, top: NatKey)
    requires Around(s, top) && s'.nats == s.nats && s'.ifaces == s.ifaces
    ensures Around(s', top)
  {
    hide ProperDisjoint, IfacesUnique;
  }

  // ---------------------------------------------------------------- the theorem

  /** What a granted request leaves around the new entry, whatever its range. */
  lemma GrantedAround(s: State, id: Id, natIp: Ip4, lo: u16, hi: u16)
    requires Inv(s) && CreateNat(s, id, natIp, lo, hi).1 == Ok
    ensures id in s.ifaces
    ensures var s', nk := CreateNat(s, id, natIp, lo, hi).0, NatKey(s.ifaces[id].vni, s.ifaces[id].ip);
            && Around(s', nk) && ForwardHanded(s'.nats, s'.ct) && s'.ct == s.ct && s'.ifaces == s.ifaces
            && nk in s'.nats && s'.nats[nk] == NatValue(natIp, lo, hi)
  {
    CreateNatGranted(s, id, natIp, lo, hi);
    CreateNatDisjoint(s, id, natIp, lo, hi);
    var s', nk := CreateNat(s, id, natIp, lo, hi).0, NatKey(s.ifaces[id].vni, s.ifaces[id].ip);
    assert s'.ct == s.ct && s'.ifaces == s.ifaces && nk !in s.nats;
    hide CreateNat, Has, IfacesUnique, NatIpsExact;
    forall k | k in s'.ct && Has(s'.ct[k].flags, CT_REWRITE_SRC)
      ensures HandedOut(s'.nats, k, s'.ct[k])
    {
      assert EntryOk(s.nats, k, s.ct[k]);
    }
    assert IfaceAt(s'.ifaces, id, nk);
    assert NatsAttached(s');
  }

  /**
   * After a granted NAT request, no allowed run ever lets two guests share an address and port, exactly when
   * the range is not reversed, or is [65535, 0): its only port is in no proper range.
   */
  lemma CreateNatStaysUnsharedIff(s: State, id: Id, natIp: Ip4, lo: u16, hi: u16)
    requires Inv(s) && CreateNat(s, id, natIp, lo, hi).1 == Ok
    ensures StaysUnshared(CreateNat(s, id, natIp, lo, hi).0) <==> lo <= hi || (lo == 65535 && hi == 0)
  {
    GrantedAround(s, id, natIp, lo, hi);
    var s' := CreateNat(s, id, natIp, lo, hi).0;
    hide CreateNat, Inv, StaysUnshared, ForwardHanded, ProperDisjoint, NatsAttached, IfacesUnique;
    if lo <= hi || (lo == 65535 && hi == 0) {
      TopStaysUnshared(s', NatKey(s.ifaces[id].vni, s.ifaces[id].ip));
    } else {
      ReversedGetsShared(s', id);
    }
  }
}
