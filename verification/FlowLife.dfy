/** How long a NATed flow keeps its translation: conntrack entries over runs, the sweep, and the port after it. */
module FlowLife {
  import opened Types
  import opened Maps
  import opened Packet
  import opened Rewrite
  import opened RewriteProofs
  import opened Tracker
  import opened NatTable
  import opened NatProofs
  import opened NatGateway
  import opened NatRoundTrip
  import opened NatPipeline

  // ---------------------------------------------------------------- while the entry lives

  /** A tracked flow leaves from the same address and port as long as its forward entry is not removed. */
  lemma TrackedFlowKeepsPort(s: State, steps: seq<Step>, k: CtKey, n64: bool, now: u64)
    requires Inv(s) && Tracked(s.ct, k) && k.src != ANY_IP4 && SparingRun(s, steps, k)
    ensures var s' := Run(s, steps);
            && NatKey(k.vni, k.src) in s'.nats && s'.nats[NatKey(k.vni, k.src)].natIp == s.ct[k].xlateIp
            && Snat(s', k, n64, now) == (s', Some(s.ct[k].xlatePort))
  {
    SparedEntryKeepsXlate(s, steps, k);
    TrackedAgrees(Run(s, steps), k);
    hide Inv, Alloc, Has, Run, SparingRun;
  }

  /** The flag bytes that the packets of a run add to the flow's history, oldest first. */
  function FlagsOf(steps: seq<Step>, k: CtKey): seq<bv8> {
    if steps == [] then []
    else
      var rest := FlagsOf(steps[1..], k);
      if steps[0].PacketTouch? && steps[0].key == k && steps[0].tcp.Some? then [steps[0].tcp.value] + rest else rest
  }

  /** When the flow was last seen after a run, `t0` being the time before it. */
  function SeenAfter(steps: seq<Step>, k: CtKey, t0: u64): u64 {
    if steps == [] then t0
    else SeenAfter(steps[1..], k, if steps[0].PacketTouch? && steps[0].key == k then steps[0].now else t0)
  }

  /** One step: the tracker state stays the fold of the flow's history. */
  lemma HistoryStep(s: State, t: Step, k: CtKey, h: seq<bv8>) returns (h': seq<bv8>)
    requires Spares(s, t, k) && Tracked(s.ct, k) && s.ct[k].tcpState == Track(h)
    ensures h' == if t.PacketTouch? && t.key == k && t.tcp.Some? then h + [t.tcp.value] else h
    ensures var e := Apply(s, t).ct[k];
            && e.tcpState == Track(h') && SameXlate(e, s.ct[k])
            && e.lastSeen == if t.PacketTouch? && t.key == k then t.now else s.ct[k].lastSeen
  {
    SparedStep(s, t, k);
    h' := if t.PacketTouch? && t.key == k && t.tcp.Some? then h + [t.tcp.value] else h;
    if h' != h {
      hide Has, TcpAdvance;
      assert (h + [t.tcp.value])[..|h|] == h;
    }
  }

  /**
   * Over every run that does not remove the entry of a NATed flow, its tracker state is the fold of the
   * flag bytes of the flow's packets and its time stamp that of the latest one.
   */
  lemma {:induction false} HistoryOverRuns(s: State, steps: seq<Step>, k: CtKey, h: seq<bv8>)
    requires SparingRun(s, steps, k) && Tracked(s.ct, k) && s.ct[k].tcpState == Track(h)
    ensures var s' := Run(s, steps);
            && Tracked(s'.ct, k) && SameXlate(s'.ct[k], s.ct[k])
            && s'.ct[k].tcpState == Track(h + FlagsOf(steps, k))
            && s'.ct[k].lastSeen == SeenAfter(steps, k, s.ct[k].lastSeen)
    decreases |steps|
  {
    hide Apply, Allowed, Has, Track;
    if steps == [] {
      assert h + [] == h;
    } else {
      var t := steps[0];
      var h' := HistoryStep(s, t, k, h);
      SameXlateTracked(s.ct, Apply(s, t).ct, k);
      HistoryOverRuns(Apply(s, t), steps[1..], k, h');
      assert h + FlagsOf(steps, k) == h' + FlagsOf(steps[1..], k);
    }
  }

  // ---------------------------------------------------------------- the sweep

  function StaleKeys(s: State, now: u64): set<CtKey> { set j | j in s.ct && Stale(s.ct[j], now) }

  /**
   * When a sweep takes the entry of a NATed flow, in nanoseconds: after a day without packets, or after 30 s
   * unless the flag bytes since the entry was made are those of an established flow.
   */
  lemma SweptIff(s: State, steps: seq<Step>, k: CtKey, now: u64)
    requires SparingRun(s, steps, k) && Tracked(s.ct, k) && s.ct[k].tcpState == TCP_NONE
    ensures var s' := Run(s, steps);
            var seen := SeenAfter(steps, k, s.ct[k].lastSeen);
            && k in s'.ct
            && (k !in Evict(s', StaleKeys(s', now)).ct
                <==> now > seen + (if Established(FlagsOf(steps, k)) then 86_400_000_000_000 else 30_000_000_000))
  {
    hide *;
    HistoryOverRuns(s, steps, k, []) by { EmptyHistory(); }
    assert [] + FlagsOf(steps, k) == FlagsOf(steps, k);
    EstablishedIff(FlagsOf(steps, k));
    TrackedIsIn(Run(s, steps).ct, k);
    StaleMeans(Run(s, steps), k, now);
  }

  lemma EmptyHistory()
    ensures Track([]) == TCP_NONE
  {
  }

  lemma StaleMeans(s: State, k: CtKey, now: u64)
    requires k in s.ct
    ensures var e := s.ct[k];
            k !in Evict(s, StaleKeys(s, now)).ct
            <==> now > e.lastSeen + if e.tcpState == TCP_ESTABLISHED then 86_400_000_000_000 else 30_000_000_000
  {
  }

  /** The packet that opens a flow is not part of its forward entry's history. */
  lemma OpeningIsUncounted(s: State, p: seq<u8>, ip: nat, k: CtKey, env: Env)
    requires Inv(s) && Plain(p, ip) && KeyOf(p, ip, env.vni) == Some(k) && NatOnly(s, k, env) && !Tracked(s.ct, k)
    ensures var s' := Egress(s, p, ip, env).0;
            Tracked(s'.ct, k) && s'.ct[k].tcpState == TCP_NONE && s'.ct[k].lastSeen == env.now
  {
    TrackStage(s, p, ip, k, env);
    var s1 := EgressTrack(s, p, ip, env).0;
    hide Inv, EgressTrack, Egress, NatOnly, KeyOf, Plain;
    var q := UntrackedFlow(s, s1, p, ip, k, env);
  }

  /** Every later packet of the guest adds its own flag byte. */
  lemma LaterPacketCounts(s: State, p: seq<u8>, ip: nat, k: CtKey, env: Env)
    requires Inv(s) && Plain(p, ip) && KeyOf(p, ip, env.vni) == Some(k) && NatOnly(s, k, env) && Tracked(s.ct, k)
    ensures var s' := Egress(s, p, ip, env).0;
            k in s'.ct && s'.ct[k] == Touched(s.ct[k], env.now, TcpFlags(p, ip))
  {
    TrackedAgrees(s, k);
    TrackStage(s, p, ip, k, env);
    FlagsUntouched(p, ip, s.ct[k]);
    var s1 := EgressTrack(s, p, ip, env).0;
    assert s1.ct[k] == Touched(s.ct[k], env.now, TcpFlags(p, ip));
    hide Inv, EgressTrack, Egress, NatOnly, KeyOf, Plain, CtApplied, Touched, TcpFlags;
    TrackedFlow(s, s1, p, ip, k, env);
  }

  lemma FlagsUntouched(p: seq<u8>, ip: nat, e: CtEntry)
    requires Plain(p, ip)
    ensures TcpFlags(CtApplied(p, ip, e), ip) == TcpFlags(p, ip)
  {
    hide Translated, Has;
    var x := EntryXlate(e);
    TranslatedFields(p, ip, OldPort(p, ip + 20, p[ip + 9], x.isSrc), x);
    assert !Changed(p, ip, x, ip) && !Changed(p, ip, x, ip + 9);
    assert p[ip + 9] == IPPROTO_TCP ==> !Changed(p, ip, x, ip + 33);
  }

  // ---------------------------------------------------------------- after the entry is gone

  predicate Taken(ct: map<CtKey, CtEntry>, k: CtKey, v: NatValue, port: u16) {
    RevKey(k.vni, v.natIp, port, k.proto) in ct
  }

  /** Probing ends at a given candidate exactly when that is free and all probed before it are taken. */
  lemma {:induction false} FirstFreeIsIff(ct: map<CtKey, CtEntry>, k: CtKey, v: NatValue, start: u16, i: nat, j: nat)
    requires Range(v) != 0 && i <= j < PROBE_LIMIT
    requires forall l | i <= l < j :: Candidate(v, start, l) != Candidate(v, start, j)
    ensures FirstFree(ct, k, v, start, i) == Some(Candidate(v, start, j))
       <==> && !Taken(ct, k, v, Candidate(v, start, j))
            && forall l | i <= l < j :: Taken(ct, k, v, Candidate(v, start, l))
    decreases j - i
  {
    hide Candidate;
    FirstFreeSound(ct, k, v, start, i);
    if i < j {
      FirstFreeIsIff(ct, k, v, start, i + 1, j);
      assert Candidate(v, start, i) != Candidate(v, start, j);
    }
  }

  /**
   * The port of a flow whose forward entry was removed is again the `j`-th candidate exactly when that is
   * free and all candidates before it are taken, or probing is exhausted and it is the first one.
   */
  lemma PortReturnsIff(s: State, k: CtKey, n64: bool, now: u64, j: nat)
    requires NatKey(k.vni, k.src) in s.nats && Range(s.nats[NatKey(k.vni, k.src)]) != 0 && !Tracked(s.ct, k)
    requires j < PROBE_LIMIT
    requires var v := s.nats[NatKey(k.vni, k.src)];
             forall l | 0 <= l < j :: Candidate(v, StartSlot(k, v), l) != Candidate(v, StartSlot(k, v), j)
    ensures var v := s.nats[NatKey(k.vni, k.src)];
            var start := StartSlot(k, v);
            Snat(s, k, n64, now).1 == Some(Candidate(v, start, j))
            <==> || (&& !Taken(s.ct, k, v, Candidate(v, start, j))
                     && forall l | 0 <= l < j :: Taken(s.ct, k, v, Candidate(v, start, l)))
                 || (j == 0 && forall l | 0 <= l < PROBE_LIMIT :: Taken(s.ct, k, v, Candidate(v, start, l)))
  {
    var v := s.nats[NatKey(k.vni, k.src)];
    var start := StartSlot(k, v);
    FirstFreeIsIff(s.ct, k, v, start, 0, j);
    FirstFreeSound(s.ct, k, v, start, 0);
    hide StartSlot, Candidate, FirstFree, Has, Tracked;
    if FirstFree(s.ct, k, v, start, 0).None? {
      assert forall l | 0 <= l < PROBE_LIMIT :: Taken(s.ct, k, v, Candidate(v, start, l));
    } else {
      var f := FirstFree(s.ct, k, v, start, 0).value;
      var l :| 0 <= l < PROBE_LIMIT && f == Candidate(v, start, l);
      assert !Taken(s.ct, k, v, Candidate(v, start, l));
    }
  }

  /**
   * While the old reply entry is still there, a flow that lost its forward entry moves to another port if one is
   * found.
   */
  lemma OldPortIsTaken(s: State, k: CtKey, n64: bool, now: u64, port: u16)
    requires NatKey(k.vni, k.src) in s.nats && Range(s.nats[NatKey(k.vni, k.src)]) != 0 && !Tracked(s.ct, k)
    requires Taken(s.ct, k, s.nats[NatKey(k.vni, k.src)], port)
    ensures var v := s.nats[NatKey(k.vni, k.src)];
            FirstFree(s.ct, k, v, StartSlot(k, v), 0).Some? ==> Snat(s, k, n64, now).1 != Some(port)
  {
    var v := s.nats[NatKey(k.vni, k.src)];
    FirstFreeSound(s.ct, k, v, StartSlot(k, v), 0);
    hide StartSlot, Candidate, FirstFree, Has, Tracked;
  }

  predicate OnlyTouches(steps: seq<Step>) { forall i | 0 <= i < |steps| :: steps[i].PacketTouch? }

  lemma {:induction false} TouchesSpare(s: State, steps: seq<Step>, k: CtKey)
    requires OnlyTouches(steps) && k in s.ct
    ensures SparingRun(s, steps, k) && Run(s, steps).nats == s.nats && Run(s, steps).ct.Keys == s.ct.Keys
    decreases |steps|
  {
    hide TcpAdvance;
    if steps != [] {
      TouchesSpare(Apply(s, steps[0]), steps[1..], k);
    }
  }

  /** A server's answer, the guest's acknowledgement, and one more packet from the server. */
  function Handshake(k: CtKey, rk: CtKey, t1: u64, t2: u64, t3: u64): seq<Step> {
    [PacketTouch(rk, t1, Some(SYN | ACK)), PacketTouch(k, t2, Some(ACK)), PacketTouch(rk, t3, Some(ACK))]
  }

  lemma PrependTouch(t: Step, rest: seq<Step>, k: CtKey, t0: u64)
    requires t.PacketTouch? && t.tcp.Some?
    ensures FlagsOf([t] + rest, k) == (if t.key == k then [t.tcp.value] else []) + FlagsOf(rest, k)
    ensures SeenAfter([t] + rest, k, t0) == SeenAfter(rest, k, if t.key == k then t.now else t0)
  {
    assert ([t] + rest)[1..] == rest;
  }

  lemma HandshakeFlags(k: CtKey, rk: CtKey, t0: u64, t1: u64, t2: u64, t3: u64)
    requires k != rk
    ensures var steps := Handshake(k, rk, t1, t2, t3);
            && OnlyTouches(steps)
            && FlagsOf(steps, k) == [ACK] && SeenAfter(steps, k, t0) == t2
            && FlagsOf(steps, rk) == [SYN | ACK, ACK] && SeenAfter(steps, rk, t0) == t3
  {
    var steps := Handshake(k, rk, t1, t2, t3);
    var last, two := [steps[2]] + [], [steps[1]] + [steps[2]];
    assert steps == [steps[0]] + two && two == [steps[1]] + last;
    PrependTouch(steps[0], two, k, t0);
    PrependTouch(steps[1], last, k, t0);
    PrependTouch(steps[2], [], k, t2);
    PrependTouch(steps[0], two, rk, t0);
    PrependTouch(steps[1], last, rk, t1);
    PrependTouch(steps[2], [], rk, t1);
  }

  lemma HandshakeEstablishes()
    ensures !Established([ACK]) && Established([SYN | ACK, ACK])
  {
    assert !IsControl(ACK);
    var h := [SYN | ACK, ACK];
    assert LatestControl(h, 0) && Opens(h[0]);
    assert Has(h[1], ACK) && AckAfter(h, 0);
  }

  /**
   * A guest-opened TCP flow that completes its handshake and then stays quiet for more than 30 s (and less
   * than a day): its forward entry is swept, because the opening SYN is not in its history, its reply entry
   * is not, and the flow's next packet leaves from another port if probing finds one.
   */
  lemma QuietFlowMovesPort(s: State, k: CtKey, t0: u64, t1: u64, t2: u64, t3: u64, now: u64)
    requires FreshlyAllocated(s, k) && k.src != ANY_IP4
    requires t2 + 30_000_000_000 < now <= t3 + 86_400_000_000_000
    ensures var (s1, port) := Snat(s, k, false, t0);
            && NatKey(k.vni, k.src) in s.nats && port.Some?
            && var v := s.nats[NatKey(k.vni, k.src)];
               var rk := RevKey(k.vni, v.natIp, port.value, k.proto);
               var s2 := Run(s1, Handshake(k, rk, t1, t2, t3));
               var s3 := Evict(s2, StaleKeys(s2, now));
               && k !in s3.ct && rk in s3.ct
               && (FirstFree(s3.ct, k, v, StartSlot(k, v), 0).Some? ==> Snat(s3, k, false, now).1 != Some(port.value))
  {
    AllocPins(s, k, false, t0);
    var (s1, port) := Snat(s, k, false, t0);
    var v := s.nats[NatKey(k.vni, k.src)];
    var rk := RevKey(k.vni, v.natIp, port.value, k.proto);
    assert Tracked(s1.ct, k) && Tracked(s1.ct, rk) && s1.nats == s.nats;
    hide Snat, FirstFree, StartSlot, Has, Run, SparingRun, Established, FlagsOf, SeenAfter, Stale;
    HandshakeFlags(k, rk, s1.ct[k].lastSeen, t1, t2, t3);
    HandshakeFlags(k, rk, s1.ct[rk].lastSeen, t1, t2, t3);
    HandshakeEstablishes();
    var steps := Handshake(k, rk, t1, t2, t3);
    hide Handshake, OnlyTouches;
    TouchesSpare(s1, steps, k);
    TouchesSpare(s1, steps, rk);
    SweptIff(s1, steps, k, now);
    SweptIff(s1, steps, rk, now);
    var s2 := Run(s1, steps);
    var s3 := Evict(s2, StaleKeys(s2, now));
    OldPortIsTaken(s3, k, false, now, port.value);
  }
}
