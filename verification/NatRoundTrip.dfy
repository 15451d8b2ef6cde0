/** End-to-end facts about NATed packets: replies come back to their flow, and the pipeline is safe. */
module NatRoundTrip {
  import opened Types
  import opened Bytes
  import opened Checksum
  import opened Maps
  import opened Packet
  import opened Rewrite
  import opened RewriteProofs
  import opened NatTable
  import opened NatProofs
  import opened NatGateway

  predicate Plain(p: seq<u8>, ip: nat) { ip + 20 <= |p| && p[ip] as int % 16 == 5 && L4Fits(p, ip + 20, p[ip + 9]) }

  /** `r` answers `q`: same protocol, addresses and ports (or ICMP identifier) mirrored. */
  predicate Mirrors(r: seq<u8>, ir: nat, q: seq<u8>, iq: nat)
    requires Plain(r, ir) && Plain(q, iq)
  {
    && r[ir + 9] == q[iq + 9]
    && Addr(r, ir + 12) == Addr(q, iq + 16) && Addr(r, ir + 16) == Addr(q, iq + 12)
    && (if q[iq + 9] == IPPROTO_ICMP then W(r, ir + 24) == W(q, iq + 24)
        else W(r, ir + 20) == W(q, iq + 22) && W(r, ir + 22) == W(q, iq + 20))
  }

  /** The packet's flow gets a port that was free: both directions are pinned. */
  predicate FreshlyAllocated(s: State, k: CtKey) {
    var nk := NatKey(k.vni, k.src);
    nk in s.nats && Range(s.nats[nk]) != 0 && !Tracked(s.ct, k)
    && FirstFree(s.ct, k, s.nats[nk], StartSlot(k, s.nats[nk]), 0).Some?
  }

  /** What allocation leaves under the reply key of the chosen port. */
  lemma AllocPins(s: State, k: CtKey, n64: bool, now: u64)
    requires FreshlyAllocated(s, k) && k.src != ANY_IP4
    ensures var (s', port) := Snat(s, k, n64, now);
            var v := s.nats[NatKey(k.vni, k.src)];
            && port.Some?
            && var rk := RevKey(k.vni, v.natIp, port.value, k.proto);
               && rk !in s.ct && rk in s'.ct && s'.ct[rk] == RevEntry(k, n64, now)
               && k in s'.ct && s'.ct[k] == FwdEntry(v, port.value, n64, now)
  {
    hide StartSlot, Candidate, Has, FirstFree;
    FirstFreeSound(s.ct, k, s.nats[NatKey(k.vni, k.src)], StartSlot(k, s.nats[NatKey(k.vni, k.src)]), 0);
  }

  /** The outgoing packet as its peer sees it. */
  lemma SnatOnTheWire(p: seq<u8>, ip: nat, k: CtKey, natIp: Ip4, port: u16)
    requires Plain(p, ip) && KeyOf(p, ip, k.vni) == Some(k)
    ensures var q := NatApplied(p, ip, k.sport, natIp, port);
            && Plain(q, ip) && q[ip + 9] == k.proto && Addr(q, ip + 12) == natIp && Addr(q, ip + 16) == k.dst
            && (if k.proto == IPPROTO_ICMP then W(q, ip + 24) == port
                else W(q, ip + 20) == port && W(q, ip + 22) == k.dport)
  {
    hide Translated;
    TranslatedFields(p, ip, k.sport, Xlate(true, natIp, Some(port)));
  }

  /** The port a packet is addressed to, or its ICMP identifier. */
  function DstPort(p: seq<u8>, ip: nat): u16
    requires Plain(p, ip)
  {
    if p[ip + 9] == IPPROTO_ICMP then W(p, ip + 24) else W(p, ip + 22)
  }

  /** A translation of the destination, seen by the guest. An entry with port 0 leaves the port alone. */
  lemma DstRewritten(r: seq<u8>, ip: nat, e: CtEntry)
    requires Plain(r, ip) && Has(e.flags, CT_REWRITE_DST) && !Has(e.flags, CT_REWRITE_SRC)
    ensures var q := CtApplied(r, ip, e);
            && Plain(q, ip) && q[ip + 9] == r[ip + 9]
            && Addr(q, ip + 12) == Addr(r, ip + 12) && Addr(q, ip + 16) == e.xlateIp
            && (r[ip + 9] != IPPROTO_ICMP ==> W(q, ip + 20) == W(r, ip + 20))
            && DstPort(q, ip) == if e.xlatePort != 0 then e.xlatePort else DstPort(r, ip)
  {
    SrcMask(e.flags);
    hide Translated, Has;
    TranslatedFields(r, ip, OldPort(r, ip + 20, r[ip + 9], false), EntryXlate(e));
  }

  /** The reply was rewritten for the address `k` was sent from, its sender untouched, good checksums kept. */
  predicate Returned(r: seq<u8>, ir: nat, back: seq<u8>, k: CtKey) {
    && Plain(r, ir) && Plain(back, ir) && back[ir + 9] == k.proto
    && Addr(back, ir + 16) == k.src && Addr(back, ir + 12) == k.dst
    && (k.proto != IPPROTO_ICMP ==> W(back, ir + 20) == k.dport)
    && (Valid(r, ir) ==> Valid(back, ir))
    && DstPort(back, ir) == if k.sport != 0 then k.sport else DstPort(r, ir)
  }

  /**
   * So the reply is addressed to the very port of the flow exactly when that port is not 0, or the public port
   * is 0 as well.
   */
  lemma PortRestoredIff(r: seq<u8>, ir: nat, back: seq<u8>, k: CtKey)
    requires Returned(r, ir, back, k)
    ensures DstPort(back, ir) == k.sport <==> k.sport != 0 || DstPort(r, ir) == 0
  {
    hide Plain, Valid;
  }

  /**
   * NAT round trip. A packet of a new flow is translated; a mirrored reply arrives in any later state
   * that still holds the reply entry's translation and the address marker. Then it is found by the
   * peer-independent key and rewritten to exactly the original guest address and port (a flow
   * from port 0 keeps the public port), its sender untouched, and valid checksums stay valid.
   */
  lemma NatRoundTrip(
      s: State, p: seq<u8>, ip: nat, k: CtKey, now: u64, later: State, r: seq<u8>, ir: nat, replyTime: u64)
    requires Plain(p, ip) && KeyOf(p, ip, k.vni) == Some(k) && k.src != ANY_IP4
    requires FreshlyAllocated(s, k) && Plain(r, ir)
    requires var (s', q, _) := SnatPacket(s, p, ip, k.vni, true, now);
             var rk := RevKey(k.vni, Addr(q, ip + 12), s'.ct[k].xlatePort, k.proto);
             && Plain(q, ip) && Mirrors(r, ir, q, ip)
             && rk in later.ct && SameXlate(later.ct[rk], s'.ct[rk])
             && VipKey(k.vni, rk.dst) in later.natIps
    ensures var (_, back, hit) := DemuxPacket(later, r, ir, k.vni, replyTime);
            && hit.Some? && hit.value.xlateIp == k.src && hit.value.xlatePort == k.sport
            && Returned(r, ir, back, k)
  {
    hide Has, StartSlot, Alloc, FirstFree, NatApplied, CtApplied, Valid, Touch;
    AllocPins(s, k, false, now);
    var v := s.nats[NatKey(k.vni, k.src)];
    var port := Snat(s, k, false, now).1.value;
    SnatOnTheWire(p, ip, k, v.natIp, port);
    var rk := RevKey(k.vni, v.natIp, port, k.proto);
    var e := later.ct[rk];
    assert KeyOf(r, ir, k.vni).Some? && DemuxKey(later, KeyOf(r, ir, k.vni).value) == rk;
    DstRewritten(r, ir, e);
    if Valid(r, ir) {
      CtApplyKeepsChecksums(r, ir, e);
    }
  }

  /** Two entries translate alike; time stamps and TCP state may differ. */
  predicate SameXlate(e: CtEntry, f: CtEntry) {
    e.xlateIp == f.xlateIp && e.xlatePort == f.xlatePort && e.flags == f.flags
  }

  /** A step that leaves the entry of `k` there; as in the pipeline, only unknown flows are default-tracked. */
  predicate Spares(s: State, t: Step, k: CtKey) {
    Allowed(s, t) && k in Apply(s, t).ct && (t.PacketDefault? ==> t.key !in s.ct)
  }

  predicate SparingRun(s: State, steps: seq<Step>, k: CtKey)
    decreases |steps|
  {
    steps == [] || (Spares(s, steps[0], k) && SparingRun(Apply(s, steps[0]), steps[1..], k))
  }

  lemma SparedStep(s: State, t: Step, k: CtKey)
    requires Spares(s, t, k) && Tracked(s.ct, k)
    ensures SameXlate(Apply(s, t).ct[k], s.ct[k])
    ensures !(t.PacketTouch? && t.key == k) ==> Apply(s, t).ct[k] == s.ct[k]
  {
    hide Has, Overlaps, InUse, StillUsed, StartSlot, Candidate, FirstFree, Flushed, Allowed;
    if t.PacketSnat? && NatKey(t.key.vni, t.key.src) in s.nats {
      var v := s.nats[NatKey(t.key.vni, t.key.src)];
      if Range(v) != 0 {
        FirstFreeSound(s.ct, t.key, v, StartSlot(t.key, v), 0);
      }
    }
  }

  lemma SameXlateTracked(ct: map<CtKey, CtEntry>, ct': map<CtKey, CtEntry>, k: CtKey)
    requires Tracked(ct, k) && k in ct' && SameXlate(ct'[k], ct[k])
    ensures Tracked(ct', k)
  {
    hide Has;
  }

  /** A NAT entry that is not removed keeps its translation through every interleaving of all steps. */
  lemma {:induction false} SparedEntryKeepsXlate(s: State, steps: seq<Step>, k: CtKey)
    requires Inv(s) && SparingRun(s, steps, k) && Tracked(s.ct, k)
    ensures var s' := Run(s, steps);
            Inv(s') && Tracked(s'.ct, k) && SameXlate(s'.ct[k], s.ct[k])
    decreases |steps|
  {
    hide Inv, Apply, Allowed, Has;
    if steps != [] {
      SparedStep(s, steps[0], k);
      StepKeepsInv(s, steps[0]);
      SameXlateTracked(s.ct, Apply(s, steps[0]).ct, k);
      SparedEntryKeepsXlate(Apply(s, steps[0]), steps[1..], k);
    }
  }

  lemma SnatPacketKeepsInv(s: State, p: seq<u8>, ip: nat, vni: u32, isExternal: bool, now: u64)
    requires Inv(s)
    ensures Inv(SnatPacket(s, p, ip, vni, isExternal, now).0)
  {
    hide Inv, Snat, NatApplied;
    if KeyOf(p, ip, vni).Some? {
      SnatKeepsInv(s, KeyOf(p, ip, vni).value, false, now);
    }
  }

  /** A pinned public address is marked. */
  lemma PinnedIsMarked(s: State, rk: CtKey)
    requires Inv(s) && rk in s.ct && Has(s.ct[rk].flags, CT_REWRITE_DST)
    ensures VipKey(rk.vni, rk.dst) in s.natIps
  {
    hide Has;
    assert EntryOk(s.nats, rk, s.ct[rk]);
    assert UsesIp(s.nats, NatKey(rk.vni, s.ct[rk].xlateIp), VipKey(rk.vni, rk.dst));
  }

  /**
   * NAT round trip over runs: from any state that satisfies the invariant, whatever packets, control calls,
   * aging and evictions come between, a mirrored reply is rewritten to exactly the original guest address
   * and port as long as the reply entry itself was not removed.
   */
  lemma NatRoundTripOverRuns(
      s: State, p: seq<u8>, ip: nat, k: CtKey, now: u64, steps: seq<Step>, r: seq<u8>, ir: nat, replyTime: u64)
    requires Inv(s) && Plain(p, ip) && KeyOf(p, ip, k.vni) == Some(k) && k.src != ANY_IP4
    requires FreshlyAllocated(s, k) && Plain(r, ir)
    requires var (s', q, _) := SnatPacket(s, p, ip, k.vni, true, now);
             && k in s'.ct && Plain(q, ip) && Mirrors(r, ir, q, ip)
             && SparingRun(s', steps, RevKey(k.vni, Addr(q, ip + 12), s'.ct[k].xlatePort, k.proto))
    ensures var later := Run(SnatPacket(s, p, ip, k.vni, true, now).0, steps);
            var (_, back, hit) := DemuxPacket(later, r, ir, k.vni, replyTime);
            && hit.Some? && hit.value.xlateIp == k.src && hit.value.xlatePort == k.sport
            && Returned(r, ir, back, k)
  {
    hide *;
    SnatPacketKeepsInv(s, p, ip, k.vni, true, now);
    var (s', q, _) := SnatPacket(s, p, ip, k.vni, true, now);
    PinnedBySnat(s, p, ip, k, now);
    var rk := RevKey(k.vni, Addr(q, ip + 12), s'.ct[k].xlatePort, k.proto);
    SparedEntryKeepsXlate(s', steps, rk);
    var later := Run(s', steps);
    TrackedIsIn(s'.ct, rk);
    TrackedIsIn(later.ct, rk);
    SameXlateFlags(later.ct[rk], s'.ct[rk]);
    PinnedIsMarked(later, rk);
    NatRoundTrip(s, p, ip, k, now, later, r, ir, replyTime);
  }

  lemma TrackedIsIn(ct: map<CtKey, CtEntry>, k: CtKey)
    requires Tracked(ct, k)
    ensures k in ct
  {
  }

  lemma SameXlateFlags(e: CtEntry, f: CtEntry)
    requires SameXlate(e, f)
    ensures e.flags == f.flags
  {
  }

  /** The translated packet's source is the address its reply entry is pinned under. */
  lemma PinnedBySnat(s: State, p: seq<u8>, ip: nat, k: CtKey, now: u64)
    requires Plain(p, ip) && KeyOf(p, ip, k.vni) == Some(k) && k.src != ANY_IP4 && FreshlyAllocated(s, k)
    ensures NatKey(k.vni, k.src) in s.nats
    ensures var (s', q, _) := SnatPacket(s, p, ip, k.vni, true, now);
            && |q| >= ip + 20 && k in s'.ct
            && var rk := RevKey(k.vni, Addr(q, ip + 12), s'.ct[k].xlatePort, k.proto);
               && Tracked(s'.ct, rk) && Has(s'.ct[rk].flags, CT_REWRITE_DST)
               && rk.src == ANY_IP4 && rk.vni == k.vni && rk.dst == Addr(q, ip + 12)
  {
    hide Has, StartSlot, Alloc, FirstFree, NatApplied;
    AllocPins(s, k, false, now);
    SnatOnTheWire(p, ip, k, s.nats[NatKey(k.vni, k.src)].natIp, Snat(s, k, false, now).1.value);
  }

  // ---------------------------------------------------------------- the immediate reply

  /** Addresses swapped. */
  function MirrorAddrs(q: seq<u8>, ip: nat): (r: seq<u8>)
    requires ip + 20 <= |q|
    ensures |r| == |q|
  {
    PutAddr(PutAddr(q, ip + 12, Addr(q, ip + 16)), ip + 16, Addr(q, ip + 12))
  }

  /** The packet a peer sends back: addresses swapped, and ports unless it is ICMP. */
  function Mirror(q: seq<u8>, ip: nat): (r: seq<u8>)
    requires Plain(q, ip)
    ensures |r| == |q|
  {
    var r := MirrorAddrs(q, ip);
    if q[ip + 9] == IPPROTO_ICMP then r
    else Put(Put(r, ip + 20, W(q, ip + 22)), ip + 22, W(q, ip + 20))
  }

  /** It answers the packet and looks the same in all header fields that steer validity. */
  lemma MirrorAnswers(q: seq<u8>, ip: nat)
    requires Plain(q, ip)
    ensures var r := Mirror(q, ip);
            && Plain(r, ip) && Mirrors(r, ip, q, ip)
            && r[ip] == q[ip] && W(r, ip + 2) == W(q, ip + 2) && r[ip + 9] == q[ip + 9]
            && W(r, ip + 10) == W(q, ip + 10)
            && (q[ip + 9] == IPPROTO_UDP ==> W(r, ip + 26) == W(q, ip + 26))
  {
  }

  lemma MirrorHeader(q: seq<u8>, ip: nat)
    requires ip + 20 <= |q|
    ensures var r := MirrorAddrs(q, ip);
            && r[ip + 20..] == q[ip + 20..] && Sum(r, ip, ip + 20) == Sum(q, ip, ip + 20)
  {
    var o := Addr(q, ip + 12);
    var q1 := PutAddr(q, ip + 12, Addr(q, ip + 16));
    assert Addr(q1, ip + 16) == Addr(q, ip + 16);
    SumPutAddr(q, ip, ip + 20, ip + 12, Addr(q, ip + 16));
    SumPutAddr(q1, ip, ip + 20, ip + 16, o);
  }

  /** Swapping words leaves every sum as it was. */
  lemma MirrorSums(q: seq<u8>, ip: nat, end: nat)
    requires Plain(q, ip) && ip + 20 <= end <= |q| && (q[ip + 9] == IPPROTO_ICMP || ip + 24 <= end)
    ensures var r := Mirror(q, ip);
            Sum(r, ip, ip + 20) == Sum(q, ip, ip + 20) && Sum(r, ip + 20, end) == Sum(q, ip + 20, end)
  {
    hide *;
    PlainIsLong(q, ip);
    MirrorHeader(q, ip);
    var m := MirrorAddrs(q, ip);
    TailSums(m, q, ip + 20, end);
    if q[ip + 9] == IPPROTO_ICMP {
      MirrorMeans(q, ip);
    } else {
      MirrorMeans(q, ip);
      WordsOfTail(m, q, ip + 20);
      SwapSums(m, ip, ip + 20, end);
    }
  }

  lemma PlainIsLong(q: seq<u8>, ip: nat)
    requires Plain(q, ip)
    ensures ip + 28 <= |q|
  {
  }

  lemma MirrorMeans(q: seq<u8>, ip: nat)
    requires Plain(q, ip)
    ensures ip + 28 <= |q|
    ensures var m := MirrorAddrs(q, ip);
            Mirror(q, ip) == if q[ip + 9] == IPPROTO_ICMP then m
                             else Put(Put(m, ip + 20, W(q, ip + 22)), ip + 22, W(q, ip + 20))
  {
    hide MirrorAddrs, Put;
  }

  lemma TailSums(m: seq<u8>, q: seq<u8>, l4: nat, end: nat)
    requires |m| == |q| && l4 <= end <= |q| && m[l4..] == q[l4..]
    ensures Sum(m, l4, end) == Sum(q, l4, end)
  {
    hide Sum;
    assert m[l4..end] == m[l4..][..end - l4] == q[l4..][..end - l4] == q[l4..end];
    SumMoved(m, l4, q, l4, end - l4);
  }

  lemma WordsOfTail(m: seq<u8>, q: seq<u8>, l4: nat)
    requires l4 + 4 <= |m| == |q| && m[l4..] == q[l4..]
    ensures W(m, l4) == W(q, l4) && W(m, l4 + 2) == W(q, l4 + 2)
  {
    assert forall i | 0 <= i < 4 :: m[l4 + i] == m[l4..][i] == q[l4..][i] == q[l4 + i];
    assert m[l4 + 0] == q[l4 + 0] && m[l4 + 1] == q[l4 + 1] && m[l4 + 2] == q[l4 + 2] && m[l4 + 3] == q[l4 + 3];
  }

  lemma SwapSums(m: seq<u8>, ip: nat, l4: nat, end: nat)
    requires ip + 20 == l4 && l4 + 4 <= end <= |m|
    ensures var r := Put(Put(m, l4, W(m, l4 + 2)), l4 + 2, W(m, l4));
            Sum(r, l4, end) == Sum(m, l4, end) && Sum(r, ip, l4) == Sum(m, ip, l4)
  {
    var m1 := Put(m, l4, W(m, l4 + 2));
    var r := Put(m1, l4 + 2, W(m, l4));
    assert W(m1, l4 + 2) == W(m, l4 + 2);
    assert r[ip..l4] == m[ip..l4];
    hide Put, Sum;
    SumPut(m, l4, end, l4, W(m, l4 + 2));
    SumPut(m1, l4, end, l4 + 2, W(m, l4));
    SumMoved(r, ip, m, ip, 20);
  }

  lemma MirrorKeepsTotal(q: seq<u8>, ip: nat)
    requires WellFormed(q, ip) && HoldsL4(q, ip)
    ensures Plain(q, ip)
    ensures var r := Mirror(q, ip);
            && WellFormed(r, ip) && HoldsL4(r, ip) && L4Total(r, ip) == L4Total(q, ip)
            && Sum(r, ip, ip + 20) == Sum(q, ip, ip + 20)
  {
    hide Sum, Mirror;
    MirrorAnswers(q, ip);
    MirrorSums(q, ip, ip + W(q, ip + 2));
  }

  lemma MirrorKeepsChecksums(q: seq<u8>, ip: nat)
    requires Valid(q, ip)
    ensures Plain(q, ip) && Valid(Mirror(q, ip), ip)
  {
    hide Verifies, Sum, Mirror, L4Total, WellFormed, HoldsL4;
    MirrorKeepsTotal(q, ip);
    MirrorAnswers(q, ip);
  }

  /**
   * Out and back at once: for every packet of a new flow, the peer's mirrored packet is translated back to
   * exactly the guest's address, and to its port unless that is 0 and the public one is not; checksums that
   * were good when the guest sent are good when it receives.
   */
  lemma NatEcho(s: State, p: seq<u8>, ip: nat, k: CtKey, now: u64, replyTime: u64)
    requires Inv(s) && Plain(p, ip) && KeyOf(p, ip, k.vni) == Some(k) && k.src != ANY_IP4
    requires FreshlyAllocated(s, k)
    ensures var (s', q, done) := SnatPacket(s, p, ip, k.vni, true, now);
            && done && Plain(q, ip)
            && var (_, back, hit) := DemuxPacket(s', Mirror(q, ip), ip, k.vni, replyTime);
               && hit.Some? && |back| == |p| && Plain(back, ip)
               && Addr(back, ip + 16) == k.src && Addr(back, ip + 12) == k.dst
               && (k.proto != IPPROTO_ICMP ==> W(back, ip + 20) == k.dport)
               && (DstPort(back, ip) == k.sport <==> k.sport != 0 || Snat(s, k, false, now).1 == Some(0))
               && (Valid(p, ip) && (s.nats[NatKey(k.vni, k.src)].portMin > 0 || NotBlank(p, ip)) ==> Valid(back, ip))
  {
    hide *;
    var (s', q, done) := SnatPacket(s, p, ip, k.vni, true, now);
    SnatIsDone(s, p, ip, k, now);
    PinnedBySnat(s, p, ip, k, now);
    var r := Mirror(q, ip);
    MirrorAnswers(q, ip);
    RunNothing(s', RevKey(k.vni, Addr(q, ip + 12), s'.ct[k].xlatePort, k.proto));
    NatRoundTripOverRuns(s, p, ip, k, now, [], r, ip, replyTime);
    DemuxLength(s', r, ip, k.vni, replyTime);
    PortRestoredIff(r, ip, DemuxPacket(s', r, ip, k.vni, replyTime).1, k);
    MirroredPort(s, p, ip, k, now);
    if Valid(p, ip) && (s.nats[NatKey(k.vni, k.src)].portMin > 0 || NotBlank(p, ip)) {
      FreshPacketKeepsChecksums(s, p, ip, k, now);
      MirrorKeepsChecksums(q, ip);
    }
    ReturnedMeans(r, ip, DemuxPacket(s', r, ip, k.vni, replyTime).1, k);
  }

  lemma ReturnedMeans(r: seq<u8>, ir: nat, back: seq<u8>, k: CtKey)
    requires Returned(r, ir, back, k)
    ensures Plain(back, ir) && Addr(back, ir + 16) == k.src && Addr(back, ir + 12) == k.dst
    ensures k.proto != IPPROTO_ICMP ==> W(back, ir + 20) == k.dport
    ensures Valid(r, ir) ==> Valid(back, ir)
  {
    hide Valid;
  }

  lemma RunNothing(s: State, rk: CtKey)
    ensures Run(s, []) == s && SparingRun(s, [], rk)
  {
  }

  lemma MirroredPort(s: State, p: seq<u8>, ip: nat, k: CtKey, now: u64)
    requires Plain(p, ip) && KeyOf(p, ip, k.vni) == Some(k) && k.src != ANY_IP4 && FreshlyAllocated(s, k)
    ensures var q := SnatPacket(s, p, ip, k.vni, true, now).1;
            && Plain(q, ip) && Plain(Mirror(q, ip), ip)
            && Snat(s, k, false, now).1 == Some(DstPort(Mirror(q, ip), ip))
  {
    hide Has, StartSlot, Alloc, FirstFree, NatApplied, Mirror;
    AllocPins(s, k, false, now);
    SnatOnTheWire(p, ip, k, s.nats[NatKey(k.vni, k.src)].natIp, Snat(s, k, false, now).1.value);
    MirrorAnswers(SnatPacket(s, p, ip, k.vni, true, now).1, ip);
  }

  lemma DemuxLength(s: State, r: seq<u8>, ip: nat, vni: u32, now: u64)
    ensures |DemuxPacket(s, r, ip, vni, now).1| == |r|
  {
    hide CtApplied, Touch, KeyOf, Demux;
  }

  lemma SnatIsDone(s: State, p: seq<u8>, ip: nat, k: CtKey, now: u64)
    requires Plain(p, ip) && KeyOf(p, ip, k.vni) == Some(k) && k.src != ANY_IP4 && FreshlyAllocated(s, k)
    ensures var (s', q, done) := SnatPacket(s, p, ip, k.vni, true, now);
            done && |q| == |p| && Plain(q, ip)
  {
    hide Has, StartSlot, Alloc, FirstFree, NatApplied;
    AllocPins(s, k, false, now);
    SnatOnTheWire(p, ip, k, s.nats[NatKey(k.vni, k.src)].natIp, Snat(s, k, false, now).1.value);
  }

  /** A port from a range that does not start at 0 is not 0; for ICMP it becomes the identifier. */
  lemma FreshPacketKeepsChecksums(s: State, p: seq<u8>, ip: nat, k: CtKey, now: u64)
    requires Inv(s) && Valid(p, ip) && KeyOf(p, ip, k.vni) == Some(k) && k.src != ANY_IP4 && FreshlyAllocated(s, k)
    requires s.nats[NatKey(k.vni, k.src)].portMin > 0 || NotBlank(p, ip)
    ensures Valid(SnatPacket(s, p, ip, k.vni, true, now).1, ip)
  {
    hide Inv, Valid, NatApplied, Has, Alloc, StartSlot, FirstFree, WellFormed, HoldsL4, IcmpRest;
    AllocPins(s, k, false, now);
    var v := s.nats[NatKey(k.vni, k.src)];
    SnatPortOwned(s, k, false, now);
    ValidHolds(p, ip);
    NatKeepsChecksumsIff(p, ip, k.proto, k.sport, k.dport, v.natIp, Snat(s, k, false, now).1.value);
  }

  lemma ValidHolds(p: seq<u8>, ip: nat)
    requires Valid(p, ip)
    ensures WellFormed(p, ip) && HoldsL4(p, ip) && ip + 20 <= |p|
  {
  }
}
