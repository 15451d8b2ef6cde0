/** Ownership, uniqueness and allocation facts of network NAT over every run of the state machine. */
module NatProofs {
  import opened Types
  import opened Maps
  import opened NatTable

  // ---------------------------------------------------------------- the invariant

  /** `guest` is configured to use `natIp` with a range that contains `port`. */
  predicate Owns(nats: map<NatKey, NatValue>, vni: u32, guest: Ip4, natIp: Ip4, port: u16) {
    var nk := NatKey(vni, guest);
    nk in nats && nats[nk].natIp == natIp && nats[nk].portMin <= port < nats[nk].portMax
  }

  /** Reply entries sit under the peer-independent key of a port their guest owns; forward entries
      translate to an address and port their guest owns; exactly these are marked as NAT's. */
  predicate EntryOk(nats: map<NatKey, NatValue>, k: CtKey, e: CtEntry) {
    && (Has(e.flags, CT_REWRITE_DST) ==>
          k == RevKey(k.vni, k.dst, k.dport, k.proto) && Owns(nats, k.vni, e.xlateIp, k.dst, k.dport))
    && (Has(e.flags, CT_REWRITE_SRC) ==> Owns(nats, k.vni, k.src, e.xlateIp, e.xlatePort))
    && (Has(e.flags, CT_F_SRC_NAT) <==> Has(e.flags, CT_REWRITE_SRC) || Has(e.flags, CT_REWRITE_DST))
    && !(Has(e.flags, CT_REWRITE_SRC) && Has(e.flags, CT_REWRITE_DST))
  }

  ghost predicate EntriesOk(nats: map<NatKey, NatValue>, ct: map<CtKey, CtEntry>) {
    forall k | k in ct :: EntryOk(nats, k, ct[k])
  }

  /** Ranges of different guests of one VNI on one public address do not meet. */
  ghost predicate Disjoint(nats: map<NatKey, NatValue>) {
    forall a, b | a in nats && b in nats && a != b && a.vni == b.vni && nats[a].natIp == nats[b].natIp ::
      nats[a].portMax <= nats[b].portMin || nats[b].portMax <= nats[a].portMin
  }

  ghost predicate Ordered(nats: map<NatKey, NatValue>) {
    forall a | a in nats :: nats[a].portMin <= nats[a].portMax
  }

  /** Every NAT entry belongs to an attached interface. */
  ghost predicate NatsAttached(s: State) { forall a | a in s.nats :: InUse(s.ifaces, a) }

  /** No two interfaces of a VNI share an address. */
  ghost predicate IfacesUnique(ifaces: map<Id, Iface>) {
    forall i, j | i in ifaces && j in ifaces && ifaces[i] == ifaces[j] :: i == j
  }

  predicate UsesIp(nats: map<NatKey, NatValue>, a: NatKey, vk: VipKey) {
    a in nats && a.vni == vk.vni && nats[a].natIp == vk.ip
  }

  /** The marker set holds exactly the public addresses in use. */
  ghost predicate NatIpsExact(s: State) {
    forall vk :: vk in s.natIps <==> exists a :: UsesIp(s.nats, a, vk)
  }

  ghost predicate Inv(s: State) {
    && EntriesOk(s.nats, s.ct) && Disjoint(s.nats) && Ordered(s.nats)
    && NatsAttached(s) && IfacesUnique(s.ifaces) && NatIpsExact(s)
  }

  // ---------------------------------------------------------------- the allocator

  /** For a nonempty configuration every probe, wrapped or not, stays in the range iff it is not reversed. */
  lemma CandidateInRangeIff(v: NatValue, start: u16, i: nat)
    requires Range(v) != 0
    ensures v.portMin <= Candidate(v, start, i) < v.portMax <==> v.portMin < v.portMax
  {
    var r := (start + i) % 0x1_0000 % Range(v);
    assert 0 <= r < Range(v);
  }

  lemma {:induction false} FirstFreeSound(ct: map<CtKey, CtEntry>, k: CtKey, v: NatValue, start: u16, i: nat)
    requires Range(v) != 0 && i <= PROBE_LIMIT
    ensures var r := FirstFree(ct, k, v, start, i);
            && (r.Some? ==> RevKey(k.vni, v.natIp, r.value, k.proto) !in ct)
            && (r.Some? ==> exists j | i <= j < PROBE_LIMIT :: r.value == Candidate(v, start, j))
            && (r.None? ==> forall j | i <= j < PROBE_LIMIT ::
                              RevKey(k.vni, v.natIp, Candidate(v, start, j), k.proto) in ct)
    decreases PROBE_LIMIT - i
  {
    if i < PROBE_LIMIT && RevKey(k.vni, v.natIp, Candidate(v, start, i), k.proto) in ct {
      FirstFreeSound(ct, k, v, start, i + 1);
    }
  }

  /** The port chosen: free beforehand or the (taken) first probe; in either case one of the guest's own. */
  lemma AllocPort(ct: map<CtKey, CtEntry>, k: CtKey, v: NatValue, n64: bool, now: u64)
    requires v.portMin < v.portMax
    ensures var p := Alloc(ct, k, v, n64, now).1;
            && v.portMin <= p < v.portMax
            && (FirstFree(ct, k, v, StartSlot(k, v), 0).None? ==> RevKey(k.vni, v.natIp, p, k.proto) in ct)
  {
    var start := StartSlot(k, v);
    FirstFreeSound(ct, k, v, start, 0);
    CandidateInRangeIff(v, start, 0);
    var r := FirstFree(ct, k, v, start, 0);
    if r.Some? {
      var j :| 0 <= j < PROBE_LIMIT && r.value == Candidate(v, start, j);
      CandidateInRangeIff(v, start, j);
    } else {
      assert 0 <= 0 < PROBE_LIMIT;
    }
  }

  /** Every slot of a range of at most 64 ports is probed, whatever the starting slot. */
  lemma SlotReaches(n: nat, start: nat, d: nat) returns (j: nat)
    requires start < n <= PROBE_LIMIT && d < n
    ensures j < PROBE_LIMIT && (start + j) % 0x1_0000 % n == d
  {
    j := if d >= start then d - start else d - start + n;
    var x := start + j;
    assert x % 0x1_0000 == x;
    if d >= start { ModSmall(x, n); } else { ModPastOne(d, n); }
  }

  lemma ModSmall(d: nat, n: nat)
    requires d < n
    ensures d % n == d
  {
  }

  lemma ModPastOne(d: nat, n: nat)
    requires d < n
    ensures (d + n) % n == d
  {
  }

  lemma CandidateAt(v: NatValue, start: u16, j: nat, d: nat)
    requires Range(v) != 0 && (start + j) % 0x1_0000 % Range(v) == d && v.portMin + d < 0x1_0000
    ensures Candidate(v, start, j) == v.portMin + d
  {
  }

  /** Up to 64 ports the probing is complete: it fails exactly when the whole range is taken. */
  lemma ProbingCompleteUpTo64(ct: map<CtKey, CtEntry>, k: CtKey, v: NatValue, start: u16)
    requires v.portMin < v.portMax && v.portMax - v.portMin <= 64 && start < v.portMax - v.portMin
    ensures FirstFree(ct, k, v, start, 0).Some?
        <==> exists p: u16 | v.portMin <= p < v.portMax :: RevKey(k.vni, v.natIp, p, k.proto) !in ct
  {
    hide Candidate;
    FirstFreeSound(ct, k, v, start, 0);
    var r := FirstFree(ct, k, v, start, 0);
    if r.Some? {
      var j :| 0 <= j < PROBE_LIMIT && r.value == Candidate(v, start, j);
      CandidateInRangeIff(v, start, j);
    } else {
      forall p: u16 | v.portMin <= p < v.portMax
        ensures RevKey(k.vni, v.natIp, p, k.proto) in ct
      {
        var j := SlotReaches(Range(v), start, p - v.portMin);
        CandidateAt(v, start, j, p - v.portMin);
      }
    }
  }

  // ---------------------------------------------------------------- each step keeps the invariant

  lemma SnatKeepsInv(s: State, k: CtKey, n64: bool, now: u64)
    requires Inv(s)
    ensures Inv(Snat(s, k, n64, now).0)
  {
    hide Has, Alloc, Candidate, StartSlot;
    var nk := NatKey(k.vni, k.src);
    if nk in s.nats && Range(s.nats[nk]) != 0 && !Tracked(s.ct, k) {
      var v := s.nats[nk];
      AllocEntries(s.nats, s.ct, k, n64, now);
    }
  }

  /** Allocation only adds entries that respect ownership. */
  lemma AllocEntries(nats: map<NatKey, NatValue>, ct: map<CtKey, CtEntry>, k: CtKey, n64: bool, now: u64)
    requires NatKey(k.vni, k.src) in nats && EntriesOk(nats, ct)
    requires var v := nats[NatKey(k.vni, k.src)]; v.portMin < v.portMax
    ensures EntriesOk(nats, Alloc(ct, k, nats[NatKey(k.vni, k.src)], n64, now).0)
  {
    hide Has, Candidate, FirstFree, StartSlot, Range;
    AllocPort(ct, k, nats[NatKey(k.vni, k.src)], n64, now);
  }

  lemma TouchKeepsInv(s: State, k: CtKey, now: u64, tcp: Option<bv8>)
    requires Inv(s)
    ensures Inv(Touch(s, k, now, tcp))
  {
  }

  lemma DefaultKeepsInv(s: State, k: CtKey, now: u64, tcp: Option<bv8>)
    requires Inv(s)
    ensures Inv(EnsureDefault(s, k, now, tcp))
  {
    var e := DefaultEntry(now, tcp);
    assert !Has(e.flags, CT_REWRITE_DST) && !Has(e.flags, CT_REWRITE_SRC) && !Has(e.flags, CT_F_SRC_NAT);
  }

  lemma IfaceStepsKeepInv(s: State, id: Id, vni: u32, ip: Ip4)
    requires Inv(s)
    ensures Inv(CreateIface(s, id, vni, ip).0)
  {
    var s' := CreateIface(s, id, vni, ip).0;
    if s' != s {
      forall i, j | i in s'.ifaces && j in s'.ifaces && s'.ifaces[i] == s'.ifaces[j]
        ensures i == j
      {
        assert !InUse(s.ifaces, NatKey(vni, ip));
        assert i != id ==> s'.ifaces[i] == s.ifaces[i];
        assert i != id && s.ifaces[i] == Iface(vni, ip) ==> IfaceAt(s.ifaces, i, NatKey(vni, ip));
        assert j != id ==> s'.ifaces[j] == s.ifaces[j];
        assert j != id && s.ifaces[j] == Iface(vni, ip) ==> IfaceAt(s.ifaces, j, NatKey(vni, ip));
      }
      forall a | a in s'.nats
        ensures InUse(s'.ifaces, a)
      {
        var i :| i in s.ifaces && IfaceAt(s.ifaces, i, a);
        assert IfaceAt(s'.ifaces, i, a);
      }
    }
  }

  /** Detaching is safe once the guest's NAT is gone. */
  lemma DetachKeepsInv(s: State, id: Id, vniHasLb: bool)
    requires Inv(s)
    requires id in s.ifaces ==> NatKey(s.ifaces[id].vni, s.ifaces[id].ip) !in s.nats
    ensures Inv(DetachIface(s, id, vniHasLb).0)
  {
    if id in s.ifaces {
      var s' := DetachIface(s, id, vniHasLb).0;
      assert s'.nats == s.nats;
      forall a | a in s'.nats
        ensures InUse(s'.ifaces, a)
      {
        var i :| i in s.ifaces && IfaceAt(s.ifaces, i, a);
        assert IfaceAt(s'.ifaces, i, a);
      }
    }
  }

  /** What a successful request has established and does. */
  lemma CreateNatGranted(s: State, id: Id, natIp: Ip4, portMin: u16, portMax: u16)
    requires CreateNat(s, id, natIp, portMin, portMax).1 == Ok
    ensures id in s.ifaces
    ensures forall i: Id | i in s.ifaces :: !OverlapsAt(s, i, s.ifaces[id].vni, natIp, portMin, portMax)
    ensures CreateNat(s, id, natIp, portMin, portMax).0.nats
         == s.nats[NatKey(s.ifaces[id].vni, s.ifaces[id].ip) := NatValue(natIp, portMin, portMax)]
  {
  }

  lemma CreateNatDisjoint(s: State, id: Id, natIp: Ip4, portMin: u16, portMax: u16)
    requires Disjoint(s.nats) && NatsAttached(s) && CreateNat(s, id, natIp, portMin, portMax).1 == Ok
    ensures Disjoint(CreateNat(s, id, natIp, portMin, portMax).0.nats)
  {
    CreateNatGranted(s, id, natIp, portMin, portMax);
    hide CreateNat, Overlaps;
    var r := s.ifaces[id];
    forall b | b in s.nats && b.vni == r.vni && s.nats[b].natIp == natIp
      ensures portMax <= s.nats[b].portMin || s.nats[b].portMax <= portMin
    {
      var i :| i in s.ifaces && IfaceAt(s.ifaces, i, b);
      assert !OverlapsAt(s, i, r.vni, natIp, portMin, portMax);
    }
  }

  lemma OwnsGrows(nats: map<NatKey, NatValue>, nk: NatKey, v: NatValue, ct: map<CtKey, CtEntry>)
    requires nk !in nats && EntriesOk(nats, ct)
    ensures EntriesOk(nats[nk := v], ct)
  {
    hide Has;
    forall k | k in ct
      ensures EntryOk(nats[nk := v], k, ct[k])
    {
      assert EntryOk(nats, k, ct[k]);
    }
  }

  lemma CreateNatKeepsInv(s: State, id: Id, natIp: Ip4, portMin: u16, portMax: u16)
    requires Inv(s) && portMin <= portMax
    ensures Inv(CreateNat(s, id, natIp, portMin, portMax).0)
  {
    hide EntriesOk, Disjoint, NatIpsExact, Overlaps;
    var (s', o) := CreateNat(s, id, natIp, portMin, portMax);
    if o == Ok {
      var nk := NatKey(s.ifaces[id].vni, s.ifaces[id].ip);
      CreateNatDisjoint(s, id, natIp, portMin, portMax);
      CreateNatMarks(s, id, natIp, portMin, portMax);
      OwnsGrows(s.nats, nk, NatValue(natIp, portMin, portMax), s.ct);
      assert IfaceAt(s'.ifaces, id, nk);
    }
  }

  lemma CreateNatMarks(s: State, id: Id, natIp: Ip4, portMin: u16, portMax: u16)
    requires NatIpsExact(s) && CreateNat(s, id, natIp, portMin, portMax).1 == Ok
    ensures NatIpsExact(CreateNat(s, id, natIp, portMin, portMax).0)
  {
    var s' := CreateNat(s, id, natIp, portMin, portMax).0;
    var nk := NatKey(s.ifaces[id].vni, s.ifaces[id].ip);
    forall vk
      ensures vk in s'.natIps <==> exists a :: UsesIp(s'.nats, a, vk)
    {
      if exists a :: UsesIp(s.nats, a, vk) {
        var a :| UsesIp(s.nats, a, vk);
        assert UsesIp(s'.nats, a, vk);
      }
      if vk == VipKey(nk.vni, natIp) { assert UsesIp(s'.nats, nk, vk); }
      if exists a :: UsesIp(s'.nats, a, vk) {
        var a :| UsesIp(s'.nats, a, vk);
        assert a == nk || UsesIp(s.nats, a, vk);
      }
    }
  }

  /** After the flush no entry of the guest is left, and everybody else's entries are still owned. */
  lemma FlushKeepsEntries(nats: map<NatKey, NatValue>, ct: map<CtKey, CtEntry>, nk: NatKey)
    requires EntriesOk(nats, ct) && nk in nats
    ensures EntriesOk(nats - {nk}, ct - FlushKeys(ct, nk.vni, nk.ip, nats[nk]))
  {
    hide Has;
    var left := ct - FlushKeys(ct, nk.vni, nk.ip, nats[nk]);
    forall k | k in left
      ensures EntryOk(nats - {nk}, k, left[k])
    {
      assert EntryOk(nats, k, ct[k]);
      assert !Flushed(k, ct[k], nk.vni, nk.ip, nats[nk]);
    }
  }

  lemma DeleteNatMarks(s: State, id: Id)
    requires NatIpsExact(s) && NatsAttached(s) && IfacesUnique(s.ifaces) && DeleteNat(s, id).1 == Ok
    ensures NatIpsExact(DeleteNat(s, id).0)
  {
    var s' := DeleteNat(s, id).0;
    var r := s.ifaces[id];
    var nk := NatKey(r.vni, r.ip);
    var v := s.nats[nk];
    forall vk
      ensures vk in s'.natIps <==> exists a :: UsesIp(s'.nats, a, vk)
    {
      if exists a :: UsesIp(s'.nats, a, vk) {
        var a :| UsesIp(s'.nats, a, vk);
        assert UsesIp(s.nats, a, vk);
        var i :| i in s.ifaces && IfaceAt(s.ifaces, i, a);
        assert i != id;
      }
      if vk in s.natIps && vk != VipKey(r.vni, v.natIp) {
        var a :| UsesIp(s.nats, a, vk);
        assert UsesIp(s'.nats, a, vk);
      }
      if vk == VipKey(r.vni, v.natIp) && StillUsed(s, id, s'.nats, r.vni, v.natIp) {
        var o :| o in s.ifaces && o != id && s.ifaces[o].vni == r.vni
              && NatKey(r.vni, s.ifaces[o].ip) in s'.nats && s'.nats[NatKey(r.vni, s.ifaces[o].ip)].natIp == v.natIp;
        assert UsesIp(s'.nats, NatKey(r.vni, s.ifaces[o].ip), vk);
        assert UsesIp(s.nats, nk, vk);
      }
    }
  }

  lemma DeleteNatKeepsInv(s: State, id: Id)
    requires Inv(s)
    ensures Inv(DeleteNat(s, id).0)
  {
    hide EntriesOk, NatIpsExact, Flushed, StillUsed;
    var (s', o) := DeleteNat(s, id);
    if o == Ok {
      var nk := NatKey(s.ifaces[id].vni, s.ifaces[id].ip);
      FlushKeepsEntries(s.nats, s.ct, nk);
      DeleteNatMarks(s, id);
    }
  }

  // ---------------------------------------------------------------- whole runs

  /** What callers must respect: ranges are not reversed, and a guest's NAT goes before its interface. */
  predicate Allowed(s: State, t: Step) {
    match t
    case AddNat(_, _, lo, hi) => lo <= hi
    case DropIface(id, _) => id in s.ifaces ==> NatKey(s.ifaces[id].vni, s.ifaces[id].ip) !in s.nats
    case _ => true
  }

  predicate AllowedRun(s: State, steps: seq<Step>)
    decreases |steps|
  {
    steps == [] || (Allowed(s, steps[0]) && AllowedRun(Apply(s, steps[0]), steps[1..]))
  }

  lemma StepKeepsInv(s: State, t: Step)
    requires Inv(s) && Allowed(s, t)
    ensures Inv(Apply(s, t))
  {
    hide Inv;
    match t
    case PacketSnat(k, n64, now) => SnatKeepsInv(s, k, n64, now);
    case PacketTouch(k, now, tcp) => TouchKeepsInv(s, k, now, tcp);
    case PacketDefault(k, now, tcp) => DefaultKeepsInv(s, k, now, tcp);
    case Removal(ks) => EvictKeepsInv(s, ks);
    case AddIface(id, vni, ip) => IfaceStepsKeepInv(s, id, vni, ip);
    case DropIface(id, lb) => DetachKeepsInv(s, id, lb);
    case AddNat(id, natIp, lo, hi) => CreateNatKeepsInv(s, id, natIp, lo, hi);
    case DropNat(id) => DeleteNatKeepsInv(s, id);
  }

  lemma EvictKeepsInv(s: State, ks: set<CtKey>)
    requires Inv(s)
    ensures Inv(Evict(s, ks))
  {
  }

  /** Ownership over every interleaving of packets, control calls, aging and eviction. */
  lemma {:induction false} RunKeepsInv(s: State, steps: seq<Step>)
    requires Inv(s) && AllowedRun(s, steps)
    ensures Inv(Run(s, steps))
    decreases |steps|
  {
    hide Inv;
    if steps != [] {
      StepKeepsInv(s, steps[0]);
      RunKeepsInv(Apply(s, steps[0]), steps[1..]);
    }
  }

  /** From power-up: reply entries are owned, ranges disjoint, and no port is used by two guests. */
  lemma ReachableStatesAreSafe(steps: seq<Step>)
    requires AllowedRun(INIT, steps)
    ensures var s := Run(INIT, steps);
            && EntriesOk(s.nats, s.ct) && Disjoint(s.nats) && NatIpsExact(s)
            && forall j, k | j in s.ct && k in s.ct :: !PortShared(j, s.ct[j], k, s.ct[k])
  {
    hide EntryOk;
    RunKeepsInv(INIT, steps);
    var s := Run(INIT, steps);
    forall j, k | j in s.ct && k in s.ct
      ensures !PortShared(j, s.ct[j], k, s.ct[k])
    {
      PortsNotShared(s, j, k);
    }
  }

  /** Two forward entries of one VNI use the same public address and port for different guests. */
  predicate PortShared(j: CtKey, e: CtEntry, k: CtKey, f: CtEntry) {
    && Has(e.flags, CT_REWRITE_SRC) && Has(f.flags, CT_REWRITE_SRC)
    && j.vni == k.vni && e.xlateIp == f.xlateIp && e.xlatePort == f.xlatePort && j.src != k.src
  }

  lemma PortsNotShared(s: State, j: CtKey, k: CtKey)
    requires Inv(s) && j in s.ct && k in s.ct
    ensures !PortShared(j, s.ct[j], k, s.ct[k])
  {
    hide Has;
    assert EntryOk(s.nats, j, s.ct[j]) && EntryOk(s.nats, k, s.ct[k]);
  }

  /** A translated packet leaves from an address and port its guest owns, tracked flow or new. */
  lemma SnatPortOwned(s: State, k: CtKey, n64: bool, now: u64)
    requires Inv(s) && k.src != ANY_IP4 && Snat(s, k, n64, now).1.Some?
    ensures var nk := NatKey(k.vni, k.src);
            nk in s.nats && (Tracked(s.ct, k) ==> s.ct[k].xlateIp == s.nats[nk].natIp)
            && Owns(s.nats, k.vni, k.src, s.nats[nk].natIp, Snat(s, k, n64, now).1.value)
  {
    hide Has, Alloc;
    var nk := NatKey(k.vni, k.src);
    if Tracked(s.ct, k) {
      assert EntryOk(s.nats, k, s.ct[k]);
    } else {
      AllocPort(s.ct, k, s.nats[nk], n64, now);
    }
  }

  /** A reply is delivered to the one guest that owns the port it is addressed to. */
  lemma ReplyReachesOwner(s: State, k: CtKey, guest: Ip4)
    requires Inv(s) && Demux(s, k).Some?
    ensures Owns(s.nats, k.vni, guest, k.dst, k.dport) <==> guest == Demux(s, k).value.xlateIp
  {
    hide Has;
    assert EntryOk(s.nats, DemuxKey(s, k), s.ct[DemuxKey(s, k)]);
  }

  /** The flush removes the guest's translation entries and nobody else's. */
  lemma FlushIsExact(s: State, nk: NatKey, k: CtKey)
    requires Inv(s) && nk in s.nats && nk.ip != ANY_IP4 && k in s.ct
    ensures k in FlushKeys(s.ct, nk.vni, nk.ip, s.nats[nk]) <==>
              (&& k.vni == nk.vni
               && (|| (Has(s.ct[k].flags, CT_REWRITE_SRC) && k.src == nk.ip)
                   || (Has(s.ct[k].flags, CT_REWRITE_DST) && s.ct[k].xlateIp == nk.ip)))
  {
    hide Has;
    assert EntryOk(s.nats, k, s.ct[k]);
  }

  // ---------------------------------------------------------------- what the callers' rules are for

  /** A reversed range is accepted by `create_nat`, and the first packet through it breaks ownership. */
  lemma ReversedRangeBreaksOwnership(s: State, k: CtKey, n64: bool, now: u64)
    requires NatKey(k.vni, k.src) in s.nats && !Tracked(s.ct, k)
    requires var v := s.nats[NatKey(k.vni, k.src)]; v.portMax < v.portMin
    ensures !EntriesOk(s.nats, Snat(s, k, n64, now).0.ct)
  {
    hide Candidate, StartSlot, FirstFree, Has;
    var s' := Snat(s, k, n64, now).0;
    assert !EntryOk(s'.nats, k, s'.ct[k]);
  }

  /** What NAT is trusted for: entries stay inside their owners' ranges, and no two guests share a port. */
  ghost predicate Safe(s: State) {
    EntriesOk(s.nats, s.ct) && forall j, k | j in s.ct && k in s.ct :: !PortShared(j, s.ct[j], k, s.ct[k])
  }

  ghost predicate StaysSafe(s: State) { forall steps: seq<Step> | AllowedRun(s, steps) :: Safe(Run(s, steps)) }

  lemma InvStaysSafe(s: State)
    requires Inv(s)
    ensures StaysSafe(s)
  {
    hide Inv, EntryOk, Run, AllowedRun;
    forall steps: seq<Step> | AllowedRun(s, steps)
      ensures Safe(Run(s, steps))
    {
      RunKeepsInv(s, steps);
      InvIsSafe(Run(s, steps));
    }
  }

  lemma InvIsSafe(s: State)
    requires Inv(s)
    ensures Safe(s)
  {
    hide EntryOk;
    forall j, k | j in s.ct && k in s.ct
      ensures !PortShared(j, s.ct[j], k, s.ct[k])
    {
      PortsNotShared(s, j, k);
    }
  }

  /** After a granted NAT request every allowed run stays safe, exactly when the range is not reversed. */
  lemma CreateNatStaysSafeIff(s: State, id: Id, natIp: Ip4, portMin: u16, portMax: u16)
    requires Inv(s) && CreateNat(s, id, natIp, portMin, portMax).1 == Ok
    ensures StaysSafe(CreateNat(s, id, natIp, portMin, portMax).0) <==> portMin <= portMax
  {
    CreateNatGranted(s, id, natIp, portMin, portMax);
    hide CreateNat, Inv, StaysSafe;
    var s' := CreateNat(s, id, natIp, portMin, portMax).0;
    if portMin <= portMax {
      CreateNatKeepsInv(s, id, natIp, portMin, portMax);
      InvStaysSafe(s');
    } else {
      UnsafeRun(s', CtKey(s.ifaces[id].vni, s.ifaces[id].ip, ANY_IP4, 0, 0, 6));
    }
  }

  /** From any state with a reversed range: make sure a flow is untracked, then let it send one packet. */
  lemma UnsafeRun(s: State, k: CtKey)
    requires NatKey(k.vni, k.src) in s.nats
    requires var v := s.nats[NatKey(k.vni, k.src)]; v.portMax < v.portMin
    ensures !StaysSafe(s)
  {
    var t0, t1 := Removal({k}), PacketSnat(k, false, 0);
    var s1 := Apply(s, t0);
    assert s1.nats == s.nats && !Tracked(s1.ct, k);
    hide Apply, Snat, EntriesOk, Tracked;
    ReversedRangeBreaksOwnership(s1, k, false, 0);
    SnatKeepsNats(s1, k, false, 0);
    RunTwo(s, t0, t1);
    assert !Safe(Run(s, [t0, t1]));
  }

  lemma SnatKeepsNats(s: State, k: CtKey, n64: bool, now: u64)
    ensures Snat(s, k, n64, now).0.nats == s.nats
    ensures Apply(s, PacketSnat(k, n64, now)) == Snat(s, k, n64, now).0
  {
    hide Alloc;
  }

  lemma RunTwo(s: State, t0: Step, t1: Step)
    ensures Run(s, [t0, t1]) == Apply(Apply(s, t0), t1)
    ensures AllowedRun(s, [t0, t1]) <==> Allowed(s, t0) && Allowed(Apply(s, t0), t1)
  {
    hide Apply, Allowed;
    RunOne(Apply(s, t0), t1);
    assert [t0, t1][1..] == [t1];
  }

  lemma RunOne(s: State, t: Step)
    ensures Run(s, [t]) == Apply(s, t)
    ensures AllowedRun(s, [t]) <==> Allowed(s, t)
  {
    hide Apply, Allowed;
    assert [t][1..] == [];
  }

  /** Port 65535 is the whole of the reversed range [65535, 0). */
  lemma OnePortAlloc(ct: map<CtKey, CtEntry>, k: CtKey, v: NatValue, now: u64)
    requires v.portMin == 65535 && v.portMax == 0
    ensures Alloc(ct, k, v, false, now).1 == 65535
    ensures forall j | j in ct && j != k && j.src != ANY_IP4 ::
              j in Alloc(ct, k, v, false, now).0 && Alloc(ct, k, v, false, now).0[j] == ct[j]
    ensures k in Alloc(ct, k, v, false, now).0 && Alloc(ct, k, v, false, now).0[k] == FwdEntry(v, 65535, false, now)
  {
    OnePort(v, StartSlot(k, v));
    hide StartSlot, Candidate, Range, FirstFree, RevEntry, FwdEntry;
    FirstFreeSound(ct, k, v, StartSlot(k, v), 0);
  }

  lemma OnePort(v: NatValue, start: u16)
    requires v.portMin == 65535 && v.portMax == 0
    ensures Range(v) == 1 && forall i: nat :: Candidate(v, start, i) == 65535
  {
  }

  /**
   * From power-up: the same reversed range is granted to two guests, and their flows leave from one address and
   * port.
   */
  lemma ReversedRangesShareAPort(natIp: Ip4, dst: Ip4, sport: u16, dport: u16, proto: u8)
    ensures var a := CtKey(7, Ip4(10, 0, 0, 1), dst, sport, dport, proto);
            var b := CtKey(7, Ip4(10, 0, 0, 2), dst, sport, dport, proto);
            var steps := [AddIface([0], 7, a.src), AddIface([1], 7, b.src), AddNat([0], natIp, 65535, 0),
                          AddNat([1], natIp, 65535, 0), PacketSnat(a, false, 0), PacketSnat(b, false, 0)];
            var ct := Run(INIT, steps).ct;
            a in ct && b in ct && PortShared(a, ct[a], b, ct[b])
  {
    var a := CtKey(7, Ip4(10, 0, 0, 1), dst, sport, dport, proto);
    var b := CtKey(7, Ip4(10, 0, 0, 2), dst, sport, dport, proto);
    var v := NatValue(natIp, 65535, 0);
    var t0, t1, t2, t3, t4, t5 := AddIface([0], 7, a.src), AddIface([1], 7, b.src), AddNat([0], natIp, 65535, 0),
      AddNat([1], natIp, 65535, 0), PacketSnat(a, false, 0), PacketSnat(b, false, 0);
    hide *;
    var s4 := BothGranted(natIp, a.src, b.src);
    BothSend(s4, a, b, v);
    RunSix(INIT, t0, t1, t2, t3, t4, t5);
  }

  lemma BothSend(s: State, a: CtKey, b: CtKey, v: NatValue)
    requires v.portMin == 65535 && v.portMax == 0 && a.vni == b.vni && a.proto == b.proto
    requires a.src != b.src && a.src != ANY_IP4 && b.src != ANY_IP4 && s.ct == map[]
    requires NatKey(a.vni, a.src) in s.nats && s.nats[NatKey(a.vni, a.src)] == v
    requires NatKey(b.vni, b.src) in s.nats && s.nats[NatKey(b.vni, b.src)] == v
    ensures var ct := Apply(Apply(s, PacketSnat(a, false, 0)), PacketSnat(b, false, 0)).ct;
            a in ct && b in ct && PortShared(a, ct[a], b, ct[b])
  {
    OnePortAlloc(s.ct, a, v, 0);
    var s1 := Apply(s, PacketSnat(a, false, 0));
    UnsentIsUntracked(s, a, b, v);
    OnePortAlloc(s1.ct, b, v, 0);
    hide Alloc, Has;
  }

  lemma UnsentIsUntracked(s: State, a: CtKey, b: CtKey, v: NatValue)
    requires s.ct == map[] && NatKey(a.vni, a.src) in s.nats && a != b && b.src != ANY_IP4
    ensures b !in Apply(s, PacketSnat(a, false, 0)).ct && Apply(s, PacketSnat(a, false, 0)).nats == s.nats
  {
    hide StartSlot, Candidate, FirstFree, Has;
  }

  lemma RunSix(s: State, t0: Step, t1: Step, t2: Step, t3: Step, t4: Step, t5: Step)
    ensures Run(s, [t0, t1, t2, t3, t4, t5]) == Apply(Apply(Apply(Apply(Apply(Apply(s, t0), t1), t2), t3), t4), t5)
  {
    hide *;
    RunFive(s, t0, t1, t2, t3, t4);
    RunSnoc(s, [t0, t1, t2, t3, t4], t5);
    assert [t0, t1, t2, t3, t4] + [t5] == [t0, t1, t2, t3, t4, t5];
  }

  lemma BothGranted(natIp: Ip4, a: Ip4, b: Ip4) returns (s: State)
    requires a != b
    ensures s == Apply(Apply(Apply(Apply(INIT, AddIface([0], 7, a)), AddIface([1], 7, b)),
                             AddNat([0], natIp, 65535, 0)), AddNat([1], natIp, 65535, 0))
    ensures s.ct == map[]
    ensures s.nats == map[NatKey(7, a) := NatValue(natIp, 65535, 0), NatKey(7, b) := NatValue(natIp, 65535, 0)]
  {
    var i1 := map[[0] := Iface(7, a)];
    var i2: map<Id, Iface> := i1[[1] := Iface(7, b)];
    var v := NatValue(natIp, 65535, 0);
    var s1, s2 := State(map[], map[], {}, i1), State(map[], map[], {}, i2);
    assert Apply(INIT, AddIface([0], 7, a)) == s1;
    assert Apply(s1, AddIface([1], 7, b)) == s2;
    var s3 := State(map[], map[NatKey(7, a) := v], {} + {VipKey(7, natIp)}, i2);
    assert Apply(s2, AddNat([0], natIp, 65535, 0)) == s3;
    assert !Overlaps(s3, 7, natIp, 65535, 0);
    s := Apply(s3, AddNat([1], natIp, 65535, 0));
  }

  lemma {:induction false} RunSnoc(s: State, steps: seq<Step>, t: Step)
    ensures Run(s, steps + [t]) == Apply(Run(s, steps), t)
    decreases |steps|
  {
    hide Apply;
    if steps == [] {
      assert [] + [t] == [t] && [t][1..] == [];
    } else {
      assert (steps + [t])[1..] == steps[1..] + [t];
      RunSnoc(Apply(s, steps[0]), steps[1..], t);
    }
  }

  /**
   * Detaching keeps the invariant exactly when the interface has no NAT: in a VNI still in use the NAT
   * entry is orphaned, and with the last user it goes but its address marker stays.
   */
  lemma DetachKeepsInvIff(s: State, id: Id, vniHasLb: bool)
    requires Inv(s) && id in s.ifaces
    ensures Inv(DetachIface(s, id, vniHasLb).0) <==> NatKey(s.ifaces[id].vni, s.ifaces[id].ip) !in s.nats
  {
    var nk, s' := NatKey(s.ifaces[id].vni, s.ifaces[id].ip), DetachIface(s, id, vniHasLb).0;
    if nk !in s.nats {
      DetachKeepsInv(s, id, vniHasLb);
    } else if nk in s'.nats {
      assert forall i: Id | i in s'.ifaces :: !IfaceAt(s'.ifaces, i, nk);
    } else {
      MarkerOutlives(s, id, vniHasLb, VipKey(nk.vni, s.nats[nk].natIp));
    }
  }

  lemma MarkerOutlives(s: State, id: Id, vniHasLb: bool, vk: VipKey)
    requires Inv(s) && id in s.ifaces
    requires var nk := NatKey(s.ifaces[id].vni, s.ifaces[id].ip);
             UsesIp(s.nats, nk, vk) && nk !in DetachIface(s, id, vniHasLb).0.nats
    ensures !NatIpsExact(DetachIface(s, id, vniHasLb).0)
  {
    var s' := DetachIface(s, id, vniHasLb).0;
    assert vk in s.natIps && s'.natIps == s.natIps;
    forall a | a in s'.nats
      ensures a.vni != vk.vni
    {
      var i :| i in s.ifaces && IfaceAt(s.ifaces, i, a);
      assert i != id;
      assert i in s'.ifaces && s'.ifaces[i].vni != s.ifaces[id].vni;
    }
  }

  /** And then a second guest can be given the very same ports. */
  lemma OrphanedRangeIsHandedOutTwice(natIp: Ip4)
    ensures var steps := [AddIface([0], 7, Ip4(10, 0, 0, 1)), AddIface([1], 7, Ip4(10, 0, 0, 2)),
                          AddNat([0], natIp, 100, 200), DropIface([0], false), AddNat([1], natIp, 100, 200)];
            !Disjoint(Run(INIT, steps).nats)
  {
    var a, b := Ip4(10, 0, 0, 1), Ip4(10, 0, 0, 2);
    var i1 := map[[0] := Iface(7, a)];
    var i2: map<Id, Iface> := i1[[1] := Iface(7, b)];
    var v := NatValue(natIp, 100, 200);
    var t0, t1, t2, t3, t4 := AddIface([0], 7, a), AddIface([1], 7, b), AddNat([0], natIp, 100, 200),
      DropIface([0], false), AddNat([1], natIp, 100, 200);
    var s1, s2 := State(map[], map[], {}, i1), State(map[], map[], {}, i2);
    assert Apply(INIT, t0) == s1;
    assert Apply(s1, t1) == s2;
    var s3 := State(map[], map[NatKey(7, a) := v], {} + {VipKey(7, natIp)}, i2);
    assert Apply(s2, t2) == s3;
    var s4 := s3.(ifaces := i2 - {[0]});
    assert [1] in s4.ifaces && s4.ifaces[[1]].vni == 7;
    assert Apply(s3, t3) == s4;
    assert !Overlaps(s4, 7, natIp, 100, 200);
    var s5 := Apply(s4, t4);
    assert NatKey(7, a) in s5.nats && NatKey(7, b) in s5.nats;
    RunFive(INIT, t0, t1, t2, t3, t4);
  }

  lemma RunFive(s: State, t0: Step, t1: Step, t2: Step, t3: Step, t4: Step)
    ensures Run(s, [t0, t1, t2, t3, t4]) == Apply(Apply(Apply(Apply(Apply(s, t0), t1), t2), t3), t4)
  {
    hide Apply;
    RunCons(s, t0, [t1, t2, t3, t4]);
    RunCons(Apply(s, t0), t1, [t2, t3, t4]);
    RunCons(Apply(Apply(s, t0), t1), t2, [t3, t4]);
    RunCons(Apply(Apply(Apply(s, t0), t1), t2), t3, [t4]);
    RunCons(Apply(Apply(Apply(Apply(s, t0), t1), t2), t3), t4, []);
    assert [t0] + [t1, t2, t3, t4] == [t0, t1, t2, t3, t4];
    assert [t1] + [t2, t3, t4] == [t1, t2, t3, t4];
    assert [t2] + [t3, t4] == [t2, t3, t4];
    assert [t3] + [t4] == [t3, t4];
    assert [t4] + [] == [t4];
  }

  lemma RunCons(s: State, t: Step, rest: seq<Step>)
    ensures Run(s, [t] + rest) == Run(Apply(s, t), rest)
  {
    hide Apply;
    assert ([t] + rest)[1..] == rest;
  }

  // ---------------------------------------------------------------- uniqueness while nothing is removed

  /** The reply key of a forward entry. */
  function Partner(k: CtKey, e: CtEntry): CtKey { RevKey(k.vni, e.xlateIp, e.xlatePort, k.proto) }

  /** A forward entry has a reply entry that leads back to exactly its source address and port. */
  predicate HasPartner(ct: map<CtKey, CtEntry>, k: CtKey)
    requires k in ct
  {
    var q := Partner(k, ct[k]);
    q in ct && Has(ct[q].flags, CT_REWRITE_DST) && Has(ct[q].flags, CT_F_SRC_NAT)
    && ct[q].xlateIp == k.src && ct[q].xlatePort == k.sport
  }

  /** All forward entries have partners, and different flows have different ones (hence different ports). */
  ghost predicate Paired(ct: map<CtKey, CtEntry>) {
    && (forall k | k in ct && Has(ct[k].flags, CT_REWRITE_SRC) :: k.src != ANY_IP4 && HasPartner(ct, k))
    && (forall j, k | j in ct && k in ct && Has(ct[j].flags, CT_REWRITE_SRC) && Has(ct[k].flags, CT_REWRITE_SRC)
                      && Partner(j, ct[j]) == Partner(k, ct[k]) :: j == k)
  }

  /** Steps that remove nothing, allocate only on a free candidate, and default-track only untracked keys. */
  predicate Grows(s: State, t: Step) {
    match t
    case PacketSnat(k, _, _) =>
      var nk := NatKey(k.vni, k.src);
      k.src != ANY_IP4
      && (nk in s.nats && Range(s.nats[nk]) != 0 && !Tracked(s.ct, k) ==>
            FirstFree(s.ct, k, s.nats[nk], StartSlot(k, s.nats[nk]), 0).Some?)
    case PacketTouch(_, _, _) => true
    case PacketDefault(k, _, _) => k !in s.ct
    case AddIface(_, _, _) => true
    case AddNat(_, _, _, _) => true
    case _ => false
  }

  lemma AllocKeepsPaired(ct: map<CtKey, CtEntry>, k: CtKey, v: NatValue, n64: bool, now: u64)
    requires Paired(ct) && k.src != ANY_IP4 && !Tracked(ct, k)
    requires Range(v) != 0 && FirstFree(ct, k, v, StartSlot(k, v), 0).Some?
    ensures Paired(Alloc(ct, k, v, n64, now).0)
  {
    hide Has, Candidate, FirstFree;
    var start := StartSlot(k, v);
    hide StartSlot;
    FirstFreeSound(ct, k, v, start, 0);
    var p := FirstFree(ct, k, v, start, 0).value;
    var rk := RevKey(k.vni, v.natIp, p, k.proto);
    var ct' := Alloc(ct, k, v, n64, now).0;
    assert ct' == ct[rk := RevEntry(k, n64, now)][k := FwdEntry(v, p, n64, now)];
    forall j | j in ct' && Has(ct'[j].flags, CT_REWRITE_SRC)
      ensures j.src != ANY_IP4 && HasPartner(ct', j)
      ensures j != k ==> j in ct && ct'[j] == ct[j] && Partner(j, ct[j]) != rk
    {
      if j != k {
        assert HasPartner(ct, j);
        assert Partner(j, ct[j]) != k;
      }
    }
  }

  lemma DefaultKeepsPaired(s: State, k: CtKey, now: u64, tcp: Option<bv8>)
    requires Paired(s.ct) && k !in s.ct
    ensures Paired(EnsureDefault(s, k, now, tcp).ct)
  {
    var e := DefaultEntry(now, tcp);
    assert !Has(e.flags, CT_REWRITE_SRC);
    hide Has, DefaultEntry;
    var ct' := EnsureDefault(s, k, now, tcp).ct;
    forall j | j in ct' && Has(ct'[j].flags, CT_REWRITE_SRC)
      ensures j in s.ct && ct'[j] == s.ct[j] && j.src != ANY_IP4 && HasPartner(ct', j)
    {
      assert j in s.ct && HasPartner(s.ct, j);
    }
  }

  lemma GrowthKeepsPaired(s: State, t: Step)
    requires Paired(s.ct) && Grows(s, t)
    ensures Paired(Apply(s, t).ct)
  {
    hide Has, Paired, Alloc, Overlaps, InUse;
    match t
    case PacketSnat(k, n64, now) =>
      var nk := NatKey(k.vni, k.src);
      if nk in s.nats && Range(s.nats[nk]) != 0 && !Tracked(s.ct, k) {
        AllocKeepsPaired(s.ct, k, s.nats[nk], n64, now);
      }
    case PacketTouch(k, now, tcp) => TouchKeepsPaired(s, k, now, tcp);
    case PacketDefault(k, now, tcp) => DefaultKeepsPaired(s, k, now, tcp);
    case _ =>
  }

  lemma TouchKeepsPaired(s: State, k: CtKey, now: u64, tcp: Option<bv8>)
    requires Paired(s.ct)
    ensures Paired(Touch(s, k, now, tcp).ct)
  {
    hide Has;
    var ct' := Touch(s, k, now, tcp).ct;
    forall j | j in ct' && Has(ct'[j].flags, CT_REWRITE_SRC)
      ensures j.src != ANY_IP4 && HasPartner(ct', j)
    {
      assert HasPartner(s.ct, j);
    }
  }

  ghost predicate GrowingRun(s: State, steps: seq<Step>)
    decreases |steps|
  {
    steps == [] || (Grows(s, steps[0]) && GrowingRun(Apply(s, steps[0]), steps[1..]))
  }

  /** While nothing is removed and probing succeeds, distinct flows to one public address hold distinct ports. */
  lemma {:induction false} AllocationIsInjective(s: State, steps: seq<Step>)
    requires Paired(s.ct) && GrowingRun(s, steps)
    ensures Paired(Run(s, steps).ct)
    decreases |steps|
  {
    hide Paired;
    if steps != [] {
      GrowthKeepsPaired(s, steps[0]);
      AllocationIsInjective(Apply(s, steps[0]), steps[1..]);
    }
  }
}
