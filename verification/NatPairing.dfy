/**
 * Forward and reply entries in pairs: exactly which steps of a run keep every flow on a port of its own with
 * a reply entry that leads back to it, and what becomes of a reply when they do not.
 */
module NatPairing {
  import opened Types
  import opened Bytes
  import opened Maps
  import opened Packet
  import opened Rewrite
  import opened RewriteProofs
  import opened Tracker
  import opened NatTable
  import opened NatProofs
  import opened NatGateway
  import opened NatRoundTrip
  import opened NatPipeline
  import opened FlowLife

  predicate Forward(ct: map<CtKey, CtEntry>, j: CtKey) { j in ct && Has(ct[j].flags, CT_REWRITE_SRC) }

  /** The entry under a reply key leads back to exactly the source of `k`. */
  predicate LeadsBack(ct: map<CtKey, CtEntry>, rk: CtKey, k: CtKey) {
    rk in ct && Has(ct[rk].flags, CT_REWRITE_DST) && Has(ct[rk].flags, CT_F_SRC_NAT)
    && ct[rk].xlateIp == k.src && ct[rk].xlatePort == k.sport
  }

  /** No other flow's forward entry relies on the reply key. */
  ghost predicate Unclaimed(ct: map<CtKey, CtEntry>, rk: CtKey, k: CtKey) {
    forall j | Forward(ct, j) && j != k :: Partner(j, ct[j]) != rk
  }

  /** A removal takes no reply entry whose forward entry stays. */
  ghost predicate SparesPairs(ct: map<CtKey, CtEntry>, ks: set<CtKey>) {
    forall j | Forward(ct, j) && j !in ks :: Partner(j, ct[j]) !in ks
  }

  // ---------------------------------------------------------------- steps

  /** An arbitrary removal keeps all pairs exactly when it takes no reply entry whose forward entry stays. */
  lemma RemovalPairedIff(ct: map<CtKey, CtEntry>, ks: set<CtKey>)
    requires Paired(ct)
    ensures Paired(ct - ks) <==> SparesPairs(ct, ks)
  {
    hide Has, Partner;
    var ct' := ct - ks;
    if SparesPairs(ct, ks) {
      forall j | j in ct' && Has(ct'[j].flags, CT_REWRITE_SRC)
        ensures j.src != ANY_IP4 && HasPartner(ct', j)
      {
        assert Forward(ct, j) && HasPartner(ct, j);
      }
    } else {
      var j :| Forward(ct, j) && j !in ks && Partner(j, ct[j]) in ks;
      assert j in ct' && !HasPartner(ct', j);
    }
  }

  ghost predicate NoForward(ct: map<CtKey, CtEntry>, vni: u32) { forall j | Forward(ct, j) :: j.vni != vni }

  /** Deleting NAT takes pairs as a whole, except for a guest at 0.0.0.0, whose flush hits all reply keys of the VNI. */
  lemma DeleteNatPairedIff(s: State, id: Id)
    requires Inv(s) && Paired(s.ct) && DeleteNat(s, id).1 == Ok
    ensures id in s.ifaces
    ensures Paired(DeleteNat(s, id).0.ct) <==> s.ifaces[id].ip != ANY_IP4 || NoForward(s.ct, s.ifaces[id].vni)
  {
    var r := s.ifaces[id];
    var v := s.nats[NatKey(r.vni, r.ip)];
    var ks := FlushKeys(s.ct, r.vni, r.ip, v);
    RemovalPairedIff(s.ct, ks);
    FlushSparesIff(s, NatKey(r.vni, r.ip));
    hide Inv, Paired, SparesPairs, NoForward, FlushKeys, StillUsed;
  }

  lemma FlushSparesIff(s: State, nk: NatKey)
    requires Inv(s) && Paired(s.ct) && nk in s.nats
    ensures SparesPairs(s.ct, FlushKeys(s.ct, nk.vni, nk.ip, s.nats[nk]))
       <==> nk.ip != ANY_IP4 || NoForward(s.ct, nk.vni)
  {
    hide Has, Inv, Paired;
    var ks := FlushKeys(s.ct, nk.vni, nk.ip, s.nats[nk]);
    forall j | Forward(s.ct, j)
      ensures nk.ip != ANY_IP4 && j !in ks ==> Partner(j, s.ct[j]) !in ks
      ensures nk.ip == ANY_IP4 ==> j !in ks && (Partner(j, s.ct[j]) in ks <==> j.vni == nk.vni)
    {
      FlushOfPair(s, nk, j);
    }
    assert nk.ip == ANY_IP4 ==> (SparesPairs(s.ct, ks) <==> NoForward(s.ct, nk.vni));
  }

  /** What a flush does to one pair. */
  lemma FlushOfPair(s: State, nk: NatKey, j: CtKey)
    requires Inv(s) && Paired(s.ct) && nk in s.nats && Forward(s.ct, j)
    ensures var ks := FlushKeys(s.ct, nk.vni, nk.ip, s.nats[nk]);
            && (nk.ip != ANY_IP4 && j !in ks ==> Partner(j, s.ct[j]) !in ks)
            && (nk.ip == ANY_IP4 ==> j !in ks && (Partner(j, s.ct[j]) in ks <==> j.vni == nk.vni))
  {
    var q := Partner(j, s.ct[j]);
    assert EntryOk(s.nats, j, s.ct[j]) && HasPartner(s.ct, j) && j.src != ANY_IP4;
    assert EntryOk(s.nats, q, s.ct[q]);
    if nk.ip != ANY_IP4 {
      FlushIsExact(s, nk, j);
      FlushIsExact(s, nk, q);
    }
    hide Has, Inv, Paired;
  }

  predicate Allocates(s: State, k: CtKey) {
    var nk := NatKey(k.vni, k.src);
    nk in s.nats && Range(s.nats[nk]) != 0 && !Tracked(s.ct, k)
  }

  predicate Exhausted(s: State, k: CtKey) {
    Allocates(s, k) &&
    var v := s.nats[NatKey(k.vni, k.src)];
    FirstFree(s.ct, k, v, StartSlot(k, v), 0).None?
  }

  /** The reply key of the port a flow falls back to. */
  function FallbackKey(s: State, k: CtKey): CtKey
    requires Allocates(s, k)
  {
    var v := s.nats[NatKey(k.vni, k.src)];
    RevKey(k.vni, v.natIp, Candidate(v, StartSlot(k, v), 0), k.proto)
  }

  /** The reply key of an allocated port is new exactly when one of the 64 candidates is free. */
  lemma AllocatedIsNewIff(s: State, k: CtKey, n64: bool, now: u64)
    requires Allocates(s, k)
    ensures Snat(s, k, n64, now).1.Some?
    ensures var v := s.nats[NatKey(k.vni, k.src)];
            var start := StartSlot(k, v);
            RevKey(k.vni, v.natIp, Snat(s, k, n64, now).1.value, k.proto) !in s.ct
            <==> exists i | 0 <= i < PROBE_LIMIT :: !Taken(s.ct, k, v, Candidate(v, start, i))
  {
    var v := s.nats[NatKey(k.vni, k.src)];
    var start := StartSlot(k, v);
    FirstFreeSound(s.ct, k, v, start, 0);
    hide StartSlot, Candidate, FirstFree, Has, Tracked;
    if FirstFree(s.ct, k, v, start, 0).None? {
      assert Taken(s.ct, k, v, Candidate(v, start, 0));
    } else {
      var i :| 0 <= i < PROBE_LIMIT && FirstFree(s.ct, k, v, start, 0).value == Candidate(v, start, i);
      assert !Taken(s.ct, k, v, Candidate(v, start, i));
    }
  }

  /** Adding only a forward entry pairs up exactly when the reply key already leads back and nobody else claims it. */
  lemma ForwardOnlyPairedIff(ct: map<CtKey, CtEntry>, k: CtKey, e: CtEntry)
    requires Paired(ct) && Has(e.flags, CT_REWRITE_SRC) && !Forward(ct, k)
    ensures k.src != ANY_IP4 ==>
              (Paired(ct[k := e]) <==> LeadsBack(ct, Partner(k, e), k) && Unclaimed(ct, Partner(k, e), k))
  {
    hide Has;
    var ct', q := ct[k := e], Partner(k, e);
    if k.src != ANY_IP4 {
      forall j | Forward(ct, j)
        ensures j != k && j.src != ANY_IP4 && HasPartner(ct', j)
      {
        assert HasPartner(ct, j);
      }
      assert HasPartner(ct', k) <==> LeadsBack(ct, q, k);
      if HasPartner(ct', k) && Unclaimed(ct, q, k) {
        assert forall j | j in ct' && Has(ct'[j].flags, CT_REWRITE_SRC) :: j == k || Forward(ct, j);
      }
      if Paired(ct') {
        forall j | Forward(ct, j) && j != k
          ensures Partner(j, ct[j]) != q
        {
          assert j in ct' && k in ct' && ct'[j] == ct[j];
        }
      }
    }
  }

  /** Allocation keeps all pairs exactly when it finds a free candidate, or its fallback is already the flow's own. */
  lemma SnatPairedIff(s: State, k: CtKey, n64: bool, now: u64)
    requires Inv(s) && Paired(s.ct) && Allocates(s, k)
    ensures Paired(Snat(s, k, n64, now).0.ct)
       <==> && k.src != ANY_IP4
            && (Exhausted(s, k) ==> LeadsBack(s.ct, FallbackKey(s, k), k) && Unclaimed(s.ct, FallbackKey(s, k), k))
  {
    var v := s.nats[NatKey(k.vni, k.src)];
    UntrackedIsNotForward(s, k);
    if k.src == ANY_IP4 {
      AllocMakesForward(s.ct, k, v, n64, now);
      hide Inv, Alloc, Has, Exhausted;
    } else if Exhausted(s, k) {
      var e := FwdEntry(v, Candidate(v, StartSlot(k, v), 0), n64, now);
      ForwardOnlyPairedIff(s.ct, k, e);
      hide Inv, Paired, Has, Unclaimed, LeadsBack, StartSlot, Candidate, FirstFree;
    } else {
      AllocKeepsPaired(s.ct, k, v, n64, now);
      hide Inv, Paired, Alloc;
    }
  }

  lemma UntrackedIsNotForward(s: State, k: CtKey)
    requires Inv(s) && !Tracked(s.ct, k)
    ensures !Forward(s.ct, k)
  {
    hide Has;
    assert k in s.ct ==> EntryOk(s.nats, k, s.ct[k]);
  }

  lemma AllocMakesForward(ct: map<CtKey, CtEntry>, k: CtKey, v: NatValue, n64: bool, now: u64)
    requires Range(v) != 0
    ensures Forward(Alloc(ct, k, v, n64, now).0, k)
  {
    hide Has, StartSlot, Candidate, FirstFree;
  }

  /** Default tracking overwrites the entry it is for: pairs stay whole exactly when that is nobody's reply entry. */
  lemma DefaultPairedIff(s: State, k: CtKey, now: u64, tcp: Option<bv8>)
    requires Paired(s.ct)
    ensures Paired(EnsureDefault(s, k, now, tcp).ct) <==> Unclaimed(s.ct, k, k)
  {
    var e := DefaultEntry(now, tcp);
    assert !Has(e.flags, CT_REWRITE_SRC) && !Has(e.flags, CT_REWRITE_DST);
    hide Has, DefaultEntry;
    var ct' := EnsureDefault(s, k, now, tcp).ct;
    if Unclaimed(s.ct, k, k) {
      forall j | j in ct' && Has(ct'[j].flags, CT_REWRITE_SRC)
        ensures j in s.ct && ct'[j] == s.ct[j] && j.src != ANY_IP4 && HasPartner(ct', j)
      {
        assert Forward(s.ct, j) && HasPartner(s.ct, j);
      }
    } else {
      var j :| Forward(s.ct, j) && j != k && Partner(j, s.ct[j]) == k;
      assert j in ct' && ct'[j] == s.ct[j] && !HasPartner(ct', j);
    }
  }

  // ---------------------------------------------------------------- runs

  /** What a step must not do, checked before it. */
  ghost predicate Harmless(s: State, t: Step) {
    match t
    case PacketSnat(k, _, _) =>
      Allocates(s, k) ==>
        k.src != ANY_IP4
        && (Exhausted(s, k) ==> LeadsBack(s.ct, FallbackKey(s, k), k) && Unclaimed(s.ct, FallbackKey(s, k), k))
    case PacketDefault(k, _, _) => Unclaimed(s.ct, k, k)
    case Removal(ks) => SparesPairs(s.ct, ks)
    case DropNat(id) =>
      DeleteNat(s, id).1 == Ok ==>
        id in s.ifaces && (s.ifaces[id].ip != ANY_IP4 || NoForward(s.ct, s.ifaces[id].vni))
    case _ => true
  }

  lemma StepPairedIff(s: State, t: Step)
    requires Inv(s) && Paired(s.ct)
    ensures Paired(Apply(s, t).ct) <==> Harmless(s, t)
  {
    hide Inv, Paired, Alloc, Exhausted, LeadsBack, Unclaimed, SparesPairs, NoForward;
    hide Overlaps, InUse, StillUsed, FlushKeys;
    match t
    case PacketSnat(k, n64, now) => if Allocates(s, k) { SnatPairedIff(s, k, n64, now); }
    case PacketTouch(k, now, tcp) => TouchKeepsPaired(s, k, now, tcp);
    case PacketDefault(k, now, tcp) => DefaultPairedIff(s, k, now, tcp);
    case Removal(ks) => RemovalPairedIff(s.ct, ks);
    case DropNat(id) => if DeleteNat(s, id).1 == Ok { DeleteNatPairedIff(s, id); }
    case _ =>
  }

  ghost predicate HarmlessRun(s: State, steps: seq<Step>)
    decreases |steps|
  {
    steps == [] || (Harmless(s, steps[0]) && HarmlessRun(Apply(s, steps[0]), steps[1..]))
  }

  /** In every state of the run each flow has a port of its own and a reply entry that leads back to it. */
  ghost predicate AlwaysPaired(s: State, steps: seq<Step>)
    decreases |steps|
  {
    Paired(s.ct) && (steps == [] || AlwaysPaired(Apply(s, steps[0]), steps[1..]))
  }

  /**
   * Over every run of all step kinds: flows stay on ports of their own, with reply entries that lead back to
   * them, exactly when no step takes or overwrites the reply entry of a flow that stays, and no allocation
   * falls back to a port that is not already the flow's own.
   */
  lemma {:induction false} AlwaysPairedIff(s: State, steps: seq<Step>)
    requires Inv(s) && Paired(s.ct) && AllowedRun(s, steps)
    ensures AlwaysPaired(s, steps) <==> HarmlessRun(s, steps)
    decreases |steps|
  {
    hide Inv, Paired, Harmless, Apply, Allowed;
    if steps != [] {
      StepPairedIff(s, steps[0]);
      StepKeepsInv(s, steps[0]);
      if Harmless(s, steps[0]) {
        AlwaysPairedIff(Apply(s, steps[0]), steps[1..]);
      } else {
        NotPairedNow(Apply(s, steps[0]), steps[1..]);
      }
    }
  }

  lemma NotPairedNow(s: State, steps: seq<Step>)
    requires !Paired(s.ct)
    ensures !AlwaysPaired(s, steps)
  {
  }

  /** In particular a port belongs to one flow only. */
  lemma PairedFlowsDiffer(ct: map<CtKey, CtEntry>, j: CtKey, k: CtKey)
    requires Paired(ct) && Forward(ct, j) && Forward(ct, k) && j.vni == k.vni && j.proto == k.proto
    requires ct[j].xlateIp == ct[k].xlateIp && ct[j].xlatePort == ct[k].xlatePort
    ensures j == k
  {
    hide Has;
  }

  // ---------------------------------------------------------------- ports alone

  /** No two flows leave from the same address and port of a VNI and protocol. */
  ghost predicate PortsUnique(ct: map<CtKey, CtEntry>) {
    forall j, k | Forward(ct, j) && Forward(ct, k) && Partner(j, ct[j]) == Partner(k, ct[k]) :: j == k
  }

  /** Allocation keeps ports unique exactly when no live flow is on the port it chooses. */
  lemma SnatUniqueIff(s: State, k: CtKey, n64: bool, now: u64)
    requires Inv(s) && PortsUnique(s.ct) && Allocates(s, k)
    ensures var (s', port) := Snat(s, k, n64, now);
            && port.Some?
            && (PortsUnique(s'.ct)
                <==> Unclaimed(s.ct, RevKey(k.vni, s.nats[NatKey(k.vni, k.src)].natIp, port.value, k.proto), k))
  {
    UntrackedIsNotForward(s, k);
    var v := s.nats[NatKey(k.vni, k.src)];
    FirstFreeSound(s.ct, k, v, StartSlot(k, v), 0);
    hide Inv, Has, StartSlot, Candidate, FirstFree;
    var (s', port) := Snat(s, k, n64, now);
    var q := RevKey(k.vni, v.natIp, port.value, k.proto);
    assert Forward(s'.ct, k) && Partner(k, s'.ct[k]) == q;
    forall j | j != k
      ensures Forward(s'.ct, j) <==> Forward(s.ct, j)
      ensures Forward(s.ct, j) ==> Partner(j, s'.ct[j]) == Partner(j, s.ct[j])
    {
    }
  }

  /** A step chooses no port a live flow is on. */
  ghost predicate PicksUnclaimed(s: State, t: Step) {
    t.PacketSnat? && Allocates(s, t.key) ==>
      var (_, port) := Snat(s, t.key, t.n64, t.now);
      var natIp := s.nats[NatKey(t.key.vni, t.key.src)].natIp;
      port.Some? && Unclaimed(s.ct, RevKey(t.key.vni, natIp, port.value, t.key.proto), t.key)
  }

  lemma StepUniqueIff(s: State, t: Step)
    requires Inv(s) && PortsUnique(s.ct)
    ensures PortsUnique(Apply(s, t).ct) <==> PicksUnclaimed(s, t)
  {
    if t.PacketSnat? {
      hide Inv, PortsUnique, Unclaimed, Alloc;
      if Allocates(s, t.key) { SnatUniqueIff(s, t.key, t.n64, t.now); }
    } else {
      assert !Has(CT_F_DEFAULT, CT_REWRITE_SRC);
      hide Inv, Has, Alloc, Overlaps, InUse, StillUsed, FlushKeys;
      var s' := Apply(s, t);
      forall j | Forward(s'.ct, j)
        ensures Forward(s.ct, j) && Partner(j, s'.ct[j]) == Partner(j, s.ct[j])
      {
      }
    }
  }

  ghost predicate AlwaysUnique(s: State, steps: seq<Step>)
    decreases |steps|
  {
    PortsUnique(s.ct) && (steps == [] || AlwaysUnique(Apply(s, steps[0]), steps[1..]))
  }

  ghost predicate UnclaimedRun(s: State, steps: seq<Step>)
    decreases |steps|
  {
    steps == [] || (PicksUnclaimed(s, steps[0]) && UnclaimedRun(Apply(s, steps[0]), steps[1..]))
  }

  /** Over every run of all step kinds, ports stay unique exactly when no allocation chooses a live flow's port. */
  lemma {:induction false} AlwaysUniqueIff(s: State, steps: seq<Step>)
    requires Inv(s) && PortsUnique(s.ct) && AllowedRun(s, steps)
    ensures AlwaysUnique(s, steps) <==> UnclaimedRun(s, steps)
    decreases |steps|
  {
    hide Inv, PortsUnique, PicksUnclaimed, Apply, Allowed;
    if steps != [] {
      StepUniqueIff(s, steps[0]);
      StepKeepsInv(s, steps[0]);
      if PicksUnclaimed(s, steps[0]) {
        AlwaysUniqueIff(Apply(s, steps[0]), steps[1..]);
      } else {
        NotUniqueNow(Apply(s, steps[0]), steps[1..]);
      }
    }
  }

  lemma NotUniqueNow(s: State, steps: seq<Step>)
    requires !PortsUnique(s.ct)
    ensures !AlwaysUnique(s, steps)
  {
  }

  // ---------------------------------------------------------------- a swept reply entry

  lemma OnlyCandidate(v: NatValue, start: u16)
    requires v.portMax == v.portMin + 1
    ensures Range(v) == 1 && forall i: nat :: Candidate(v, start, i) == v.portMin
  {
  }

  lemma OnlyPort(s: State, k: CtKey, now: u64)
    requires Allocates(s, k) && s.nats[NatKey(k.vni, k.src)].portMax == s.nats[NatKey(k.vni, k.src)].portMin + 1
    ensures Snat(s, k, false, now).1 == Some(s.nats[NatKey(k.vni, k.src)].portMin)
    ensures var v := s.nats[NatKey(k.vni, k.src)];
            RevKey(k.vni, v.natIp, v.portMin, k.proto) !in s.ct ==> FreshlyAllocated(s, k)
  {
    var v := s.nats[NatKey(k.vni, k.src)];
    OnlyCandidate(v, StartSlot(k, v));
    FirstFreeSound(s.ct, k, v, StartSlot(k, v), 0);
    hide StartSlot, Candidate, Range, FirstFree, Has;
  }

  /**
   * Nothing is exhausted here, and yet two flows share a port. Reply entries are touched by replies only: a
   * flow that sends without being answered keeps its forward entry, while its reply entry is swept after
   * 30 s. The next flow of the guest then finds the port free, and from there on replies to either flow are
   * rewritten for the second one.
   */
  lemma SweptReplySharesPort(s: State, a: CtKey, b: CtKey, t0: u64, t1: u64, tcp: Option<bv8>, now: u64)
    requires FreshlyAllocated(s, a) && a.src != ANY_IP4 && !Tracked(s.ct, b)
    requires b != a && b.src == a.src && b.vni == a.vni && b.proto == a.proto
    requires s.nats[NatKey(a.vni, a.src)].portMax == s.nats[NatKey(a.vni, a.src)].portMin + 1
    requires t0 + 30_000_000_000 < now <= t1 + 30_000_000_000
    ensures var s2 := Run(Snat(s, a, false, t0).0, [PacketTouch(a, t1, tcp)]);
            var s3 := Evict(s2, StaleKeys(s2, now));
            var s4 := Snat(s3, b, false, now).0;
            && FreshlyAllocated(s3, b) && Forward(s4.ct, a) && Forward(s4.ct, b)
            && Partner(a, s4.ct[a]) == Partner(b, s4.ct[b]) && LeadsBack(s4.ct, Partner(a, s4.ct[a]), b)
            && !PortsUnique(s4.ct)
  {
    var v := s.nats[NatKey(a.vni, a.src)];
    var rk := RevKey(a.vni, v.natIp, v.portMin, a.proto);
    AllocPins(s, a, false, t0);
    FreshAllocates(s, a);
    OnlyPort(s, a, t0);
    var s1 := Snat(s, a, false, t0).0;
    AllocTouchesTwo(s, a, false, t0, b);
    var s2 := SweptPair(s1, a, rk, t0, t1, tcp, now);
    assert s2 == Run(s1, [PacketTouch(a, t1, tcp)]);
    hide Run, Stale, Has, FirstFree, StartSlot, Range;
    var s3 := Evict(s2, StaleKeys(s2, now));
    assert !Tracked(s3.ct, b);
    assert Allocates(s3, b);
    OnlyPort(s3, b, now);
    AllocPins(s3, b, false, now);
    AllocTouchesTwo(s3, b, false, now, a);
  }

  lemma FreshAllocates(s: State, k: CtKey)
    requires FreshlyAllocated(s, k)
    ensures Allocates(s, k)
  {
    hide FirstFree, StartSlot;
  }

  /** Allocation writes the flow's own key and a reply key, no other guest-side key. */
  lemma AllocTouchesTwo(s: State, k: CtKey, n64: bool, now: u64, j: CtKey)
    requires j != k && j.src != ANY_IP4
    ensures var s' := Snat(s, k, n64, now).0;
            && (j in s'.ct <==> j in s.ct) && (j in s.ct ==> s'.ct[j] == s.ct[j])
            && s'.nats == s.nats && s'.natIps == s.natIps
  {
    hide StartSlot, Candidate, FirstFree, Has;
  }

  /** One packet of the flow, then a sweep in time for its reply entry but not for its forward entry. */
  lemma SweptPair(s1: State, a: CtKey, rk: CtKey, t0: u64, t1: u64, tcp: Option<bv8>, now: u64) returns (s2: State)
    requires Tracked(s1.ct, a) && Tracked(s1.ct, rk) && rk != a
    requires s1.ct[a].lastSeen == t0 && s1.ct[a].tcpState == TCP_NONE && s1.ct[rk].lastSeen == t0
    requires s1.ct[rk].tcpState == TCP_NONE
    requires t0 + 30_000_000_000 < now <= t1 + 30_000_000_000
    ensures s2 == Run(s1, [PacketTouch(a, t1, tcp)]) && s2.nats == s1.nats
    ensures forall j | j != a :: (j in s2.ct <==> j in s1.ct) && (j in s1.ct ==> s2.ct[j] == s1.ct[j])
    ensures var s3 := Evict(s2, StaleKeys(s2, now));
            && rk !in s3.ct && a in s3.ct && SameXlate(s3.ct[a], s1.ct[a])
  {
    RunOne(s1, PacketTouch(a, t1, tcp));
    s2 := Run(s1, [PacketTouch(a, t1, tcp)]);
    hide TcpAdvance, Run;
  }

  // ---------------------------------------------------------------- replies

  /** What the uplink does with a packet to a marked address and port of a NAT guest. */
  lemma ReplyThroughEntry(later: State, r: seq<u8>, ir: nat, k: CtKey, natIp: Ip4, port: u16, replyTime: u64)
    requires Plain(r, ir) && r[ir + 9] == k.proto && Addr(r, ir + 16) == natIp && Addr(r, ir + 12) == k.dst
    requires if k.proto == IPPROTO_ICMP then W(r, ir + 24) == port
             else W(r, ir + 20) == k.dport && W(r, ir + 22) == port
    requires VipKey(k.vni, natIp) in later.natIps
    ensures var rk := RevKey(k.vni, natIp, port, k.proto);
            var (_, back, hit) := DemuxPacket(later, r, ir, k.vni, replyTime);
            if rk in later.ct && Has(later.ct[rk].flags, CT_REWRITE_DST)
            then hit == Some(later.ct[rk]) && back == CtApplied(r, ir, later.ct[rk])
            else hit == None && back == r
  {
    hide Has, CtApplied, Touch;
    var rk := RevKey(k.vni, natIp, port, k.proto);
    assert KeyOf(r, ir, k.vni).Some? && DemuxKey(later, KeyOf(r, ir, k.vni).value) == rk;
  }

  lemma LedBack(r: seq<u8>, ir: nat, e: CtEntry, k: CtKey)
    requires Plain(r, ir) && r[ir + 9] == k.proto && Addr(r, ir + 12) == k.dst
    requires if k.proto == IPPROTO_ICMP then true else W(r, ir + 20) == k.dport
    requires Has(e.flags, CT_REWRITE_DST) && !Has(e.flags, CT_REWRITE_SRC)
    requires e.xlateIp == k.src && e.xlatePort == k.sport
    ensures Returned(r, ir, CtApplied(r, ir, e), k)
  {
    DstRewritten(r, ir, e);
    if Valid(r, ir) { CtApplyKeepsChecksums(r, ir, e); }
    hide CtApplied, Valid, Has;
  }

  /** Addresses of NAT guests are marked. */
  lemma NatIsMarked(s: State, nk: NatKey)
    requires Inv(s) && nk in s.nats
    ensures VipKey(nk.vni, s.nats[nk].natIp) in s.natIps
  {
    assert UsesIp(s.nats, nk, VipKey(nk.vni, s.nats[nk].natIp));
    hide EntriesOk, Disjoint, Ordered, NatsAttached, IfacesUnique;
  }

  /** The forward entry after network SNAT, tracked flow or new. */
  lemma SnatLeavesForward(s: State, p: seq<u8>, ip: nat, k: CtKey, now: u64)
    requires Inv(s) && Plain(p, ip) && KeyOf(p, ip, k.vni) == Some(k) && k.src != ANY_IP4
    requires Snat(s, k, false, now).1.Some?
    ensures NatKey(k.vni, k.src) in s.nats
    ensures var (s', q, done) := SnatPacket(s, p, ip, k.vni, true, now);
            var natIp, port := s.nats[NatKey(k.vni, k.src)].natIp, Snat(s, k, false, now).1.value;
            && done && q == NatApplied(p, ip, k.sport, natIp, port) && s'.nats == s.nats
            && s' == Snat(s, k, false, now).0
            && k in s'.ct && Partner(k, s'.ct[k]) == RevKey(k.vni, natIp, port, k.proto)
  {
    if Tracked(s.ct, k) { TrackedAgrees(s, k); }
    hide Inv, NatApplied, Has, StartSlot, Candidate, FirstFree;
  }

  /**
   * For every packet of a NATed flow, new (by a free port or on exhaustion) or tracked: the peer's immediate
   * answer is rewritten by the flow's own address and port exactly when the flow's forward entry then has
   * its partner. (Port 0 in an entry means none: such a reply keeps the public port, as `Returned` says.)
   */
  lemma EchoReturnsIff(s: State, p: seq<u8>, ip: nat, k: CtKey, now: u64, replyTime: u64)
    requires Inv(s) && Plain(p, ip) && KeyOf(p, ip, k.vni) == Some(k) && k.src != ANY_IP4
    requires Snat(s, k, false, now).1.Some?
    ensures var (s', q, done) := SnatPacket(s, p, ip, k.vni, true, now);
            && done && Plain(q, ip) && k in s'.ct
            && var (_, back, hit) := DemuxPacket(s', Mirror(q, ip), ip, k.vni, replyTime);
               && (hit.Some? && hit.value.xlateIp == k.src && hit.value.xlatePort == k.sport <==> HasPartner(s'.ct, k))
               && (HasPartner(s'.ct, k) ==> Returned(Mirror(q, ip), ip, back, k))
  {
    hide *;
    SnatPacketKeepsInv(s, p, ip, k.vni, true, now);
    SnatLeavesForward(s, p, ip, k, now);
    var (s', q, _) := SnatPacket(s, p, ip, k.vni, true, now);
    var natIp, port := s.nats[NatKey(k.vni, k.src)].natIp, Snat(s, k, false, now).1.value;
    var rk := RevKey(k.vni, natIp, port, k.proto);
    SnatOnTheWire(p, ip, k, natIp, port);
    MirrorAnswers(q, ip);
    MirroredPacket(q, ip, k, natIp, port);
    NatIsMarked(s', NatKey(k.vni, k.src));
    NatKeyMeans(k);
    ReplyThroughEntry(s', Mirror(q, ip), ip, k, natIp, port, replyTime);
    PartnerMeans(s', k, rk);
    if HasPartner(s'.ct, k) {
      LedBack(Mirror(q, ip), ip, s'.ct[rk], k);
    }
  }

  lemma NatKeyMeans(k: CtKey)
    ensures NatKey(k.vni, k.src).vni == k.vni
  {
  }

  lemma MirroredPacket(q: seq<u8>, ip: nat, k: CtKey, natIp: Ip4, port: u16)
    requires Plain(q, ip) && q[ip + 9] == k.proto && Addr(q, ip + 12) == natIp && Addr(q, ip + 16) == k.dst
    requires if k.proto == IPPROTO_ICMP then W(q, ip + 24) == port
             else W(q, ip + 20) == port && W(q, ip + 22) == k.dport
    ensures var r := Mirror(q, ip);
            && Plain(r, ip) && r[ip + 9] == k.proto && Addr(r, ip + 16) == natIp && Addr(r, ip + 12) == k.dst
            && (if k.proto == IPPROTO_ICMP then W(r, ip + 24) == port
                else W(r, ip + 20) == k.dport && W(r, ip + 22) == port)
  {
    MirrorAnswers(q, ip);
    hide Mirror;
  }

  /** In an invariant state, a flow has its partner exactly when the reply entry translates to its address and port. */
  lemma PartnerMeans(s: State, k: CtKey, rk: CtKey)
    requires Inv(s) && k in s.ct && Partner(k, s.ct[k]) == rk
    ensures HasPartner(s.ct, k) <==> && rk in s.ct && Has(s.ct[rk].flags, CT_REWRITE_DST)
                                     && s.ct[rk].xlateIp == k.src && s.ct[rk].xlatePort == k.sport
    ensures HasPartner(s.ct, k) ==> Tracked(s.ct, rk) && !Has(s.ct[rk].flags, CT_REWRITE_SRC)
  {
    hide Has;
    assert rk in s.ct ==> EntryOk(s.nats, rk, s.ct[rk]);
  }

  /**
   * When a packet's flow has its partner after network SNAT: by a free port, by its own old reply entry, or
   * already.
   */
  lemma PartnerAfterSnatIff(s: State, k: CtKey, now: u64)
    requires Inv(s) && k.src != ANY_IP4 && Snat(s, k, false, now).1.Some?
    ensures var s' := Snat(s, k, false, now).0;
            && k in s'.ct
            && (Tracked(s.ct, k) ==> (HasPartner(s'.ct, k) <==> HasPartner(s.ct, k)))
            && (!Tracked(s.ct, k) ==>
                  && Allocates(s, k)
                  && (HasPartner(s'.ct, k) <==> (Exhausted(s, k) ==> LeadsBack(s.ct, FallbackKey(s, k), k))))
  {
    if !Tracked(s.ct, k) {
      var v := s.nats[NatKey(k.vni, k.src)];
      FirstFreeSound(s.ct, k, v, StartSlot(k, v), 0);
      hide Inv, Has, StartSlot, Candidate, FirstFree;
    }
  }

  /**
   * Round trip for any packet of a flow that has its partner, new or old: after every run that does not
   * remove the reply entry, a mirrored reply is rewritten by exactly the flow's address and port.
   */
  lemma PartnerRoundTripOverRuns(
      s: State, p: seq<u8>, ip: nat, k: CtKey, now: u64, steps: seq<Step>, r: seq<u8>, ir: nat, replyTime: u64)
    requires Inv(s) && Plain(p, ip) && KeyOf(p, ip, k.vni) == Some(k) && k.src != ANY_IP4
    requires Snat(s, k, false, now).1.Some? && Plain(r, ir)
    requires var (s', q, _) := SnatPacket(s, p, ip, k.vni, true, now);
             && k in s'.ct && HasPartner(s'.ct, k) && Plain(q, ip) && Mirrors(r, ir, q, ip)
             && SparingRun(s', steps, Partner(k, s'.ct[k]))
    ensures var later := Run(SnatPacket(s, p, ip, k.vni, true, now).0, steps);
            var (_, back, hit) := DemuxPacket(later, r, ir, k.vni, replyTime);
            && hit.Some? && hit.value.xlateIp == k.src && hit.value.xlatePort == k.sport && Returned(r, ir, back, k)
  {
    hide *;
    SnatPacketKeepsInv(s, p, ip, k.vni, true, now);
    SnatLeavesForward(s, p, ip, k, now);
    var (s', q, _) := SnatPacket(s, p, ip, k.vni, true, now);
    var natIp, port := s.nats[NatKey(k.vni, k.src)].natIp, Snat(s, k, false, now).1.value;
    var rk := RevKey(k.vni, natIp, port, k.proto);
    SnatOnTheWire(p, ip, k, natIp, port);
    AnsweringPacket(r, ir, q, ip, k, natIp, port);
    PartnerMeans(s', k, rk);
    ReplyAfterRun(s', k, rk, natIp, port, steps, r, ir, replyTime);
  }

  lemma AnsweringPacket(r: seq<u8>, ir: nat, q: seq<u8>, ip: nat, k: CtKey, natIp: Ip4, port: u16)
    requires Plain(r, ir) && Plain(q, ip) && Mirrors(r, ir, q, ip)
    requires q[ip + 9] == k.proto && Addr(q, ip + 12) == natIp && Addr(q, ip + 16) == k.dst
    requires if k.proto == IPPROTO_ICMP then W(q, ip + 24) == port
             else W(q, ip + 20) == port && W(q, ip + 22) == k.dport
    ensures r[ir + 9] == k.proto && Addr(r, ir + 16) == natIp && Addr(r, ir + 12) == k.dst
    ensures if k.proto == IPPROTO_ICMP then W(r, ir + 24) == port else W(r, ir + 20) == k.dport && W(r, ir + 22) == port
  {
  }

  /** From a state with the reply entry, over a run that spares it. */
  lemma ReplyAfterRun(
      s: State, k: CtKey, rk: CtKey, natIp: Ip4, port: u16, steps: seq<Step>, r: seq<u8>, ir: nat, replyTime: u64)
    requires Inv(s) && rk == RevKey(k.vni, natIp, port, k.proto) && SparingRun(s, steps, rk)
    requires rk in s.ct && Tracked(s.ct, rk) && Has(s.ct[rk].flags, CT_REWRITE_DST)
    requires !Has(s.ct[rk].flags, CT_REWRITE_SRC)
    requires s.ct[rk].xlateIp == k.src && s.ct[rk].xlatePort == k.sport
    requires Plain(r, ir) && r[ir + 9] == k.proto && Addr(r, ir + 16) == natIp && Addr(r, ir + 12) == k.dst
    requires if k.proto == IPPROTO_ICMP then W(r, ir + 24) == port
             else W(r, ir + 20) == k.dport && W(r, ir + 22) == port
    ensures var (_, back, hit) := DemuxPacket(Run(s, steps), r, ir, k.vni, replyTime);
            && hit.Some? && hit.value.xlateIp == k.src && hit.value.xlatePort == k.sport && Returned(r, ir, back, k)
  {
    SparedEntryKeepsXlate(s, steps, rk);
    var later := Run(s, steps);
    PinnedIsMarked(later, rk);
    hide *;
    RevKeyFields(k.vni, natIp, port, k.proto);
    ReplyThroughEntry(later, r, ir, k, natIp, port, replyTime);
    LedBack(r, ir, later.ct[rk], k);
  }

  lemma RevKeyFields(vni: u32, natIp: Ip4, port: u16, proto: u8)
    ensures var rk := RevKey(vni, natIp, port, proto); rk.vni == vni && rk.dst == natIp
  {
  }

  /**
   * Every later packet of a flow: from a state in which the flow has its partner, over a run that spares
   * both entries, the next packet leaves from the same address and port, and its answers come back over
   * every further run that spares the reply entry.
   */
  lemma LaterPacketReturns(
      s: State, before: seq<Step>, p: seq<u8>, ip: nat, k: CtKey, now: u64,
      after: seq<Step>, r: seq<u8>, ir: nat, replyTime: u64)
    requires Inv(s) && Tracked(s.ct, k) && k.src != ANY_IP4 && HasPartner(s.ct, k)
    requires SparingRun(s, before, k) && SparingRun(s, before, Partner(k, s.ct[k]))
    requires Plain(p, ip) && KeyOf(p, ip, k.vni) == Some(k) && Plain(r, ir)
    requires var (s', q, _) := SnatPacket(Run(s, before), p, ip, k.vni, true, now);
             Plain(q, ip) && Mirrors(r, ir, q, ip) && SparingRun(s', after, Partner(k, s.ct[k]))
    ensures var (s', q, done) := SnatPacket(Run(s, before), p, ip, k.vni, true, now);
            && done && q == NatApplied(p, ip, k.sport, s.ct[k].xlateIp, s.ct[k].xlatePort)
            && var (_, back, hit) := DemuxPacket(Run(s', after), r, ir, k.vni, replyTime);
               && hit.Some? && hit.value.xlateIp == k.src && hit.value.xlatePort == k.sport && Returned(r, ir, back, k)
  {
    hide *;
    TrackedIsIn(s.ct, k);
    PartnerMeans(s, k, Partner(k, s.ct[k]));
    PartnerOverRun(s, before, k);
    TrackedFlowKeepsPort(s, before, k, false, now);
    var s1 := Run(s, before);
    PartnerAfterSnatIff(s1, k, now);
    SnatLeavesForward(s1, p, ip, k, now);
    PartnerRoundTripOverRuns(s1, p, ip, k, now, after, r, ir, replyTime);
  }

  /** A pair that is spared stays a pair. */
  lemma PartnerOverRun(s: State, steps: seq<Step>, k: CtKey)
    requires Inv(s) && Tracked(s.ct, k) && k.src != ANY_IP4 && HasPartner(s.ct, k)
    requires SparingRun(s, steps, k) && SparingRun(s, steps, Partner(k, s.ct[k]))
    ensures var s' := Run(s, steps);
            Inv(s') && Tracked(s'.ct, k) && HasPartner(s'.ct, k) && Partner(k, s'.ct[k]) == Partner(k, s.ct[k])
  {
    SparedEntryKeepsXlate(s, steps, k);
    SparedEntryKeepsXlate(s, steps, Partner(k, s.ct[k]));
    hide Inv, Run, SparingRun, Has;
  }

  /** The same through the whole pipeline: any packet of a flow that has its partner, mirrored replies at the uplink. */
  lemma EgressTrackedRoundTrip(
      s: State, p: seq<u8>, ip: nat, k: CtKey, env: Env, steps: seq<Step>, r: seq<u8>, ir: nat, replyTime: u64)
    requires Inv(s) && Plain(p, ip) && KeyOf(p, ip, env.vni) == Some(k) && NatOnly(s, k, env)
    requires Tracked(s.ct, k) && HasPartner(s.ct, k) && PortAgrees(p, ip, k, s.ct[k]) && Plain(r, ir)
    requires var (s', q, _) := Egress(s, p, ip, env);
             Plain(q, ip) && Mirrors(r, ir, q, ip) && SparingRun(s', steps, Partner(k, s.ct[k]))
    ensures var later := Run(Egress(s, p, ip, env).0, steps);
            var (_, back, hit) := DemuxPacket(later, r, ir, k.vni, replyTime);
            && hit.Some? && hit.value.xlateIp == k.src && hit.value.xlatePort == k.sport && Returned(r, ir, back, k)
  {
    hide *;
    NatOnlyMeans(s, k, env);
    PlainKey(p, ip, k);
    TrackedAgrees(s, k);
    TrackedSnat(s, k, env.now);
    EgressIsOneTranslation(s, p, ip, k, env);
    EgressKeepsInv(s, p, ip, env);
    var (s', q, _) := Egress(s, p, ip, env);
    var rk := Partner(k, s.ct[k]);
    PartnerMeans(s, k, rk);
    EgressKeepsReply(s, p, ip, k, env, rk);
    SnatOnTheWire(p, ip, k, s.ct[k].xlateIp, s.ct[k].xlatePort);
    AnsweringPacket(r, ir, q, ip, k, s.ct[k].xlateIp, s.ct[k].xlatePort);
    PartnerKey(k, s.ct[k]);
    ReplyAfterRun(s', k, rk, s.ct[k].xlateIp, s.ct[k].xlatePort, steps, r, ir, replyTime);
  }

  lemma PartnerKey(k: CtKey, e: CtEntry)
    ensures Partner(k, e) == RevKey(k.vni, e.xlateIp, e.xlatePort, k.proto)
  {
  }

  /** A tracked flow's packet leaves its reply entry as it is. */
  lemma EgressKeepsReply(s: State, p: seq<u8>, ip: nat, k: CtKey, env: Env, rk: CtKey)
    requires Inv(s) && Plain(p, ip) && KeyOf(p, ip, env.vni) == Some(k) && NatOnly(s, k, env) && Tracked(s.ct, k)
    requires rk in s.ct && rk != k
    ensures var s' := Egress(s, p, ip, env).0;
            rk in s'.ct && s'.ct[rk] == s.ct[rk] && (Tracked(s.ct, rk) ==> Tracked(s'.ct, rk))
  {
    TrackStage(s, p, ip, k, env);
    var s1 := EgressTrack(s, p, ip, env).0;
    TrackedFlow(s, s1, p, ip, k, env);
    assert s1.ct[rk] == s.ct[rk];
    hide Inv, EgressTrack, Egress, NatOnly, CtApplied, NatApplied, Has, EgressDefault, KeyOf, Plain;
    DefaultSpares(s1, CtApplied(p, ip, s.ct[k]), ip, env, rk);
  }
}
