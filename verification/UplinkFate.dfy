/** Whose answers the ingress firewall lets in: those of tracked flows always, those of NATed flows by its rules. */
module UplinkFate {
  import opened Types
  import opened Maps
  import opened Packet
  import opened Rewrite
  import opened RewriteProofs
  import opened NatTable
  import opened NatProofs
  import opened NatGateway
  import opened NatRoundTrip
  import opened NatPipeline
  import opened EgressFate

  /** A packet is refused exactly when its flow is new and the rules drop it, and then nothing changes. */
  lemma RefusedIff(s: State, p: seq<u8>, ip: nat, vni: u32, fwDrops: bool, tracks: bool, now: u64)
    ensures var (s', ok) := Admit(s, p, ip, vni, fwDrops, tracks, now);
            && (!ok <==> fwDrops && KeyOf(p, ip, vni).Some? && KeyOf(p, ip, vni).value !in s.ct)
            && (!ok || !tracks ==> s' == s)
            && (ok && tracks && KeyOf(p, ip, vni).Some? ==>
                  KeyOf(p, ip, vni).value in s'.ct && s'.ct[KeyOf(p, ip, vni).value].lastSeen == now)
  {
    hide KeyOf, TcpFlags;
  }

  /** An answer's key is the inverse of the packet's. */
  lemma AnswerKey(r: seq<u8>, ir: nat, q: seq<u8>, ip: nat, vni: u32)
    requires Plain(r, ir) && Plain(q, ip) && Mirrors(r, ir, q, ip)
    ensures KeyOf(q, ip, vni).Some?
    ensures KeyOf(r, ir, vni) == Some(InvertKey(KeyOf(q, ip, vni).value))
  {
  }

  /** A key that every step leaves there is there at the end. */
  lemma {:induction false} SparedStays(s: State, steps: seq<Step>, k: CtKey)
    requires k in s.ct && SparingRun(s, steps, k)
    ensures k in Run(s, steps).ct
    decreases |steps|
  {
    hide Apply, Allowed;
    if steps != [] { SparedStays(Apply(s, steps[0]), steps[1..], k); }
  }

  /**
   * The answer to a flow that a guest opened without NAT, a VIP's included, is admitted whatever the ingress rules
   * say: from any state, after any run that leaves the seeded entry there.
   */
  lemma SeededAnswerIsAdmitted(
      s: State, p: seq<u8>, ip: nat, env: Env, steps: seq<Step>, r: seq<u8>, ir: nat,
      fwDrops: bool, tracks: bool, now: u64)
    requires ip + 20 <= |p| && Ihl(p, ip) >= 20 && !Firewalled(s, p, ip, env) && RouteDst(p, ip, env) in env.routes
    requires !IsNatted(s, p, ip, env) && Plain(r, ir)
    requires var (s', q, _) := Egress(s, p, ip, env);
             && Plain(q, ip) && Mirrors(r, ir, q, ip) && KeyOf(q, ip, env.vni).Some?
             && KeyOf(q, ip, env.vni).value !in s.ct
             && SparingRun(s', steps, InvertKey(KeyOf(q, ip, env.vni).value))
    ensures Admit(Run(Egress(s, p, ip, env).0, steps), r, ir, env.vni, fwDrops, tracks, now).1
  {
    hide *;
    var (s', q, _) := Egress(s, p, ip, env);
    AnswerIsTracked(s, p, ip, env);
    MirrorKey(q, ip, env.vni);
    AnswerKey(r, ir, q, ip, env.vni);
    SparedStays(s', steps, InvertKey(KeyOf(q, ip, env.vni).value));
    RefusedIff(Run(s', steps), r, ir, env.vni, fwDrops, tracks, now);
  }

  // ---------------------------------------------------------------- NAT replies

  /** The key of a reply that was rewritten for the guest. */
  lemma ReturnedKey(r: seq<u8>, ir: nat, back: seq<u8>, k: CtKey)
    requires Returned(r, ir, back, k) && k.sport != 0 && (k.proto == IPPROTO_ICMP ==> k.dport == k.sport)
    ensures KeyOf(back, ir, k.vni) == Some(InvertKey(k))
  {
    hide Valid;
  }

  lemma IcmpKey(p: seq<u8>, ip: nat, k: CtKey)
    requires KeyOf(p, ip, k.vni) == Some(k)
    ensures k.proto == IPPROTO_ICMP ==> k.dport == k.sport
  {
  }

  /** What sending the first packet of a NATed flow adds to conntrack is not the inverse of the guest's own key. */
  lemma InverseNotAdded(s: State, p: seq<u8>, ip: nat, k: CtKey, env: Env)
    requires Inv(s) && Plain(p, ip) && KeyOf(p, ip, env.vni) == Some(k) && NatOnly(s, k, env) && FreshlyAllocated(s, k)
    requires k.src != k.dst
    ensures InvertKey(k) in Egress(s, p, ip, env).0.ct <==> InvertKey(k) in s.ct
  {
    hide *;
    FreshIsUntracked(s, k);
    NatOnlyMeans(s, k, env);
    TrackStage(s, p, ip, k, env);
    var s1 := EgressTrack(s, p, ip, env).0;
    FreshAfterTracking(s, s1, k);
    var q := UntrackedFlow(s, s1, p, ip, k, env);
    var v, port := s.nats[NatKey(k.vni, k.src)], Snat(s, k, false, env.now).1.value;
    TranslatedKey(p, ip, k, v.natIp, port);
    AllocatedKeys(s1, p, ip, k, env, InvertKey(k));
    DefaultKeys(SnatPacket(s1, p, ip, env.vni, true, env.now).0, q, ip, env, InvertKey(k));
    InverseDiffers(k, v.natIp, port);
  }

  lemma InverseDiffers(k: CtKey, natIp: Ip4, port: u16)
    requires natIp != k.src
    ensures var out := CtKey(k.vni, natIp, k.dst, port, if k.proto == IPPROTO_ICMP then port else k.dport, k.proto);
            InvertKey(k) != out && InvertKey(k) != InvertKey(out)
  {
  }

  lemma AllocatedKeys(s: State, p: seq<u8>, ip: nat, k: CtKey, env: Env, j: CtKey)
    requires KeyOf(p, ip, env.vni) == Some(k) && k.vni == env.vni && FreshlyAllocated(s, k) && k.src != ANY_IP4
    requires k.src != k.dst && j == InvertKey(k) && s.nats[NatKey(k.vni, k.src)].natIp != k.src
    ensures j in SnatPacket(s, p, ip, env.vni, true, env.now).0.ct <==> j in s.ct
  {
    hide NatApplied, StartSlot, Candidate, FirstFree, Has, KeyOf;
  }

  lemma DefaultKeys(s: State, q: seq<u8>, ip: nat, env: Env, j: CtKey)
    requires KeyOf(q, ip, env.vni).Some?
    ensures var out := KeyOf(q, ip, env.vni).value;
            j != out && j != InvertKey(out) ==> (j in EgressDefault(s, q, ip, env).ct <==> j in s.ct)
  {
    hide KeyOf, TcpFlags;
  }

  /**
   * The immediate answer to the first packet of a NATed flow is rewritten for the guest, and is then a new flow
   * to the ingress firewall: it is admitted exactly when the rules let it, or the guest's flow happened to be
   * tracked from the peer's side before.
   */
  lemma NatReplyAdmittedIff(s: State, p: seq<u8>, ip: nat, k: CtKey, env: Env, fwDrops: bool, replyTime: u64)
    requires Inv(s) && Plain(p, ip) && KeyOf(p, ip, env.vni) == Some(k) && NatOnly(s, k, env) && FreshlyAllocated(s, k)
    requires k.src != k.dst && k.sport != 0
    ensures var (s', q, _) := Egress(s, p, ip, env);
            && Plain(q, ip)
            && var (s2, back, hit) := DemuxPacket(s', Mirror(q, ip), ip, k.vni, replyTime);
               && hit.Some? && Returned(Mirror(q, ip), ip, back, k)
               && (Admit(s2, back, ip, k.vni, fwDrops, false, replyTime).1 <==> !fwDrops || InvertKey(k) in s.ct)
  {
    hide *;
    FreshIsUntracked(s, k);
    NatOnlyMeans(s, k, env);
    IcmpKey(p, ip, k);
    PlainKey(p, ip, k);
    var (s', q, _) := Egress(s, p, ip, env);
    EgressIsOneTranslation(s, p, ip, k, env);
    TranslatedKey(p, ip, k, s.nats[NatKey(k.vni, k.src)].natIp, Snat(s, k, false, env.now).1.value);
    MirrorAnswers(q, ip);
    RunNothing(s', ReplyKey(s, k, env.now));
    EgressRoundTripOverRuns(s, p, ip, k, env, [], Mirror(q, ip), ip, replyTime);
    var (s2, back, hit) := DemuxPacket(s', Mirror(q, ip), ip, k.vni, replyTime);
    ReturnedKey(Mirror(q, ip), ip, back, k);
    DemuxRefreshes(s', Mirror(q, ip), ip, k.vni, replyTime, k);
    InverseNotAdded(s, p, ip, k, env);
    RefusedIff(s2, back, ip, k.vni, fwDrops, false, replyTime);
  }
}
