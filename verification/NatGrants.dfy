/** When the control plane grants a request, by ports and addresses, and which calls undo each other. */
module NatGrants {
  import opened Types
  import opened Maps
  import opened NatTable
  import opened NatProofs

  // ---------------------------------------------------------------- grants

  predicate InRange(v: NatValue, port: u16) { v.portMin <= port < v.portMax }

  /**
   * A range keeps a request [lo, hi) out: both hold a port, or one of them is empty or reversed and lies
   * strictly inside the other.
   */
  ghost predicate Blocks(v: NatValue, lo: u16, hi: u16) {
    if lo < hi && v.portMin < v.portMax then exists port: u16 :: InRange(v, port) && lo <= port < hi
    else lo < v.portMax && v.portMin < hi
  }

  lemma OverlapIsShared(v: NatValue, lo: u16, hi: u16)
    ensures lo < v.portMax && hi > v.portMin <==> Blocks(v, lo, hi)
  {
    if lo < hi && v.portMin < v.portMax && lo < v.portMax && hi > v.portMin {
      var port := if lo < v.portMin then v.portMin else lo;
      assert InRange(v, port);
    }
  }

  /** An interface is attached exactly when its id is new and no interface of the VNI has its address. */
  lemma AttachGrantedIff(s: State, id: Id, vni: u32, ip: Ip4)
    ensures var (s', r) := CreateIface(s, id, vni, ip);
            && (r == Ok
                <==> id !in s.ifaces && forall j | j in s.ifaces && s.ifaces[j].vni == vni :: s.ifaces[j].ip != ip)
            && (r != Ok ==> s' == s)
            && (r == Ok ==> s' == State(s.ct, s.nats, s.natIps, s.ifaces[id := Iface(vni, ip)]))
  {
    if j :| j in s.ifaces && s.ifaces[j].vni == vni && s.ifaces[j].ip == ip {
      assert IfaceAt(s.ifaces, j, NatKey(vni, ip));
    }
  }

  /**
   * NAT is granted exactly when the interface exists, has no NAT, and no range of a guest of its VNI on the
   * same public address keeps the request out. Other VNIs and other addresses never matter.
   */
  lemma NatGrantedIff(s: State, id: Id, natIp: Ip4, lo: u16, hi: u16)
    requires NatsAttached(s)
    ensures CreateNat(s, id, natIp, lo, hi).1 == Ok
       <==> && id in s.ifaces && NatKey(s.ifaces[id].vni, s.ifaces[id].ip) !in s.nats
            && forall a | a in s.nats && a.vni == s.ifaces[id].vni && s.nats[a].natIp == natIp ::
                 !Blocks(s.nats[a], lo, hi)
    ensures CreateNat(s, id, natIp, lo, hi).1 != Ok ==> CreateNat(s, id, natIp, lo, hi).0 == s
  {
    if id in s.ifaces {
      OverlapsByRange(s, s.ifaces[id].vni, natIp, lo, hi);
    }
    hide Overlaps, Blocks;
  }

  lemma OverlapsByRange(s: State, vni: u32, natIp: Ip4, lo: u16, hi: u16)
    requires NatsAttached(s)
    ensures Overlaps(s, vni, natIp, lo, hi)
       <==> exists a :: a in s.nats && a.vni == vni && s.nats[a].natIp == natIp && Blocks(s.nats[a], lo, hi)
  {
    hide Blocks;
    if i :| i in s.ifaces && OverlapsAt(s, i, vni, natIp, lo, hi) {
      var a := NatKey(vni, s.ifaces[i].ip);
      OverlapIsShared(s.nats[a], lo, hi);
      assert a in s.nats && a.vni == vni && s.nats[a].natIp == natIp && Blocks(s.nats[a], lo, hi);
    }
    if a :| a in s.nats && a.vni == vni && s.nats[a].natIp == natIp && Blocks(s.nats[a], lo, hi) {
      OverlapIsShared(s.nats[a], lo, hi);
      var i :| i in s.ifaces && IfaceAt(s.ifaces, i, a);
      assert OverlapsAt(s, i, vni, natIp, lo, hi);
    }
  }

  // ---------------------------------------------------------------- undoing

  /** Attaching and detaching undo each other. */
  lemma AttachDetach(s: State, id: Id, vni: u32, ip: Ip4, vniHasLb: bool)
    requires NatsAttached(s) && CreateIface(s, id, vni, ip).1 == Ok
    ensures DetachIface(CreateIface(s, id, vni, ip).0, id, vniHasLb) == (s, Ok)
  {
    var s1 := CreateIface(s, id, vni, ip).0;
    assert s1.ifaces - {id} == s.ifaces;
    assert NatKey(vni, ip) !in s.nats;
    assert s.nats - {NatKey(vni, ip)} == s.nats;
  }

  /**
   * Detaching takes nobody else's NAT, and the interface's own exactly when neither another interface nor a
   * balancer uses the VNI.
   */
  lemma DetachTakesOwnIff(s: State, id: Id, vniHasLb: bool, a: NatKey)
    requires id in s.ifaces && a in s.nats
    ensures var (s', r) := DetachIface(s, id, vniHasLb);
            && r == Ok && s'.ifaces == s.ifaces - {id} && s'.ct == s.ct && s'.natIps == s.natIps
            && (a !in s'.nats <==> && a == NatKey(s.ifaces[id].vni, s.ifaces[id].ip) && !vniHasLb
                                   && forall j | j in s.ifaces && j != id :: s.ifaces[j].vni != s.ifaces[id].vni)
            && (a in s'.nats ==> s'.nats[a] == s.nats[a])
  {
    var ifaces := s.ifaces - {id};
    assert (exists j | j in ifaces :: ifaces[j].vni == s.ifaces[id].vni)
        <==> exists j | j in s.ifaces && j != id :: s.ifaces[j].vni == s.ifaces[id].vni by {
      if j :| j in s.ifaces && j != id && s.ifaces[j].vni == s.ifaces[id].vni {
        assert j in ifaces && ifaces[j].vni == s.ifaces[id].vni;
      }
    }
  }

  /** No reply entry of the VNI is there. */
  ghost predicate NoReplies(ct: map<CtKey, CtEntry>, vni: u32) {
    forall k | k in ct && k.vni == vni && k.src == ANY_IP4 :: !Tracked(ct, k)
  }

  /** Before a guest has NAT, a flush for it takes nothing, or, for a guest at 0.0.0.0, the VNI's reply entries. */
  lemma FlushBeforeNat(s: State, nk: NatKey, v: NatValue, k: CtKey)
    requires Inv(s) && nk !in s.nats && k in s.ct
    requires forall a | a in s.nats && a.vni == nk.vni && s.nats[a].natIp == v.natIp ::
               v.portMax <= s.nats[a].portMin || s.nats[a].portMax <= v.portMin
    ensures Flushed(k, s.ct[k], nk.vni, nk.ip, v)
       <==> nk.ip == ANY_IP4 && k.vni == nk.vni && k.src == ANY_IP4 && Tracked(s.ct, k)
  {
    hide Has;
    assert EntryOk(s.nats, k, s.ct[k]);
  }

  /**
   * Granting NAT and deleting it undo each other, conntrack and markers included, exactly unless the guest is at
   * 0.0.0.0 and its VNI has a reply entry.
   */
  lemma GrantDeleteIff(s: State, id: Id, natIp: Ip4, lo: u16, hi: u16)
    requires Inv(s) && lo <= hi && CreateNat(s, id, natIp, lo, hi).1 == Ok
    ensures id in s.ifaces
    ensures var (s', r) := DeleteNat(CreateNat(s, id, natIp, lo, hi).0, id);
            && r == Ok
            && (s' == s <==> s.ifaces[id].ip != ANY_IP4 || NoReplies(s.ct, s.ifaces[id].vni))
  {
    var s1, rec := CreateNat(s, id, natIp, lo, hi).0, s.ifaces[id];
    var nk, v := NatKey(rec.vni, rec.ip), NatValue(natIp, lo, hi);
    GrantKeepsApart(s, id, natIp, lo, hi);
    GrantedState(s, id, natIp, lo, hi);
    var s2 := DeleteNat(s1, id).0;
    DeletedMarks(s, id, natIp, lo, hi);
    DeletedConfig(s1, id);
    assert s1.nats - {nk} == s.nats;
    hide CreateNat, DeleteNat, Inv, StillUsed, Flushed;
    forall k | k in s.ct
      ensures k in s2.ct <==> !(rec.ip == ANY_IP4 && k.vni == rec.vni && k.src == ANY_IP4 && Tracked(s.ct, k))
    {
      FlushBeforeNat(s, nk, v, k);
    }
    hide Tracked;
    if s2.ct == s.ct {
      assert s2 == s;
    }
    assert s2.ct.Keys == s.ct.Keys ==> s2.ct == s.ct;
  }

  lemma GrantKeepsApart(s: State, id: Id, natIp: Ip4, lo: u16, hi: u16)
    requires Inv(s) && lo <= hi && CreateNat(s, id, natIp, lo, hi).1 == Ok
    ensures id in s.ifaces
    ensures forall a | a in s.nats && a.vni == s.ifaces[id].vni && s.nats[a].natIp == natIp ::
              hi <= s.nats[a].portMin || s.nats[a].portMax <= lo
  {
    NatGrantedIff(s, id, natIp, lo, hi);
    forall a | a in s.nats && a.vni == s.ifaces[id].vni && s.nats[a].natIp == natIp
      ensures hi <= s.nats[a].portMin || s.nats[a].portMax <= lo
    {
      OverlapIsShared(s.nats[a], lo, hi);
    }
  }

  lemma GrantedState(s: State, id: Id, natIp: Ip4, lo: u16, hi: u16)
    requires CreateNat(s, id, natIp, lo, hi).1 == Ok
    ensures id in s.ifaces && NatKey(s.ifaces[id].vni, s.ifaces[id].ip) !in s.nats
    ensures var s1, rec := CreateNat(s, id, natIp, lo, hi).0, s.ifaces[id];
            && s1.ct == s.ct && s1.ifaces == s.ifaces
            && s1.nats == s.nats[NatKey(rec.vni, rec.ip) := NatValue(natIp, lo, hi)]
            && s1.natIps == s.natIps + {VipKey(rec.vni, natIp)}
  {
  }

  lemma DeletedConfig(s: State, id: Id)
    requires id in s.ifaces && NatKey(s.ifaces[id].vni, s.ifaces[id].ip) in s.nats
    ensures var (s', r) := DeleteNat(s, id);
            var nk := NatKey(s.ifaces[id].vni, s.ifaces[id].ip);
            && r == Ok && s'.nats == s.nats - {nk} && s'.ifaces == s.ifaces
            && s'.ct.Keys <= s.ct.Keys && (forall k | k in s'.ct :: s'.ct[k] == s.ct[k])
            && forall k | k in s.ct :: k in s'.ct <==> !Flushed(k, s.ct[k], nk.vni, nk.ip, s.nats[nk])
  {
    hide Flushed, StillUsed;
  }

  /** The marker comes and goes with the address. */
  lemma DeletedMarks(s: State, id: Id, natIp: Ip4, lo: u16, hi: u16)
    requires Inv(s) && lo <= hi && CreateNat(s, id, natIp, lo, hi).1 == Ok
    ensures DeleteNat(CreateNat(s, id, natIp, lo, hi).0, id).0.natIps == s.natIps
  {
    GrantedState(s, id, natIp, lo, hi);
    CreateNatKeepsInv(s, id, natIp, lo, hi);
    var s1 := CreateNat(s, id, natIp, lo, hi).0;
    DeleteNatKeepsInv(s1, id);
    DeletedConfig(s1, id);
    var s2 := DeleteNat(s1, id).0;
    assert s2.nats == s.nats;
    hide CreateNat, DeleteNat, Flushed, EntriesOk, Disjoint, Ordered, NatsAttached, IfacesUnique;
    SameMarks(s, s2);
  }

  lemma SameMarks(s: State, s': State)
    requires NatIpsExact(s) && NatIpsExact(s') && s'.nats == s.nats
    ensures s'.natIps == s.natIps
  {
    forall vk
      ensures vk in s'.natIps <==> vk in s.natIps
    {
      assert vk in s.natIps <==> exists a :: UsesIp(s.nats, a, vk);
    }
  }

  /**
   * After its NAT is deleted no packet of the guest is translated, the NAT of all others is as it was, and the
   * range can be granted to any other interface of the VNI that has none.
   */
  lemma DeletedIsFree(s: State, id: Id, other: Id, k: CtKey, n64: bool, now: u64)
    requires Inv(s) && DeleteNat(s, id).1 == Ok
    ensures id in s.ifaces && NatKey(s.ifaces[id].vni, s.ifaces[id].ip) in s.nats
    ensures var s', rec := DeleteNat(s, id).0, s.ifaces[id];
            var v := s.nats[NatKey(rec.vni, rec.ip)];
            && (k.vni == rec.vni && k.src == rec.ip ==> Snat(s', k, n64, now) == (s', None))
            && (forall a | a in s.nats && a != NatKey(rec.vni, rec.ip) :: a in s'.nats && s'.nats[a] == s.nats[a])
            && (other in s.ifaces && s.ifaces[other].vni == rec.vni
                && NatKey(rec.vni, s.ifaces[other].ip) !in s'.nats ==>
                  CreateNat(s', other, v.natIp, v.portMin, v.portMax).1 == Ok)
  {
    DeletedConfig(s, id);
    DeleteNatKeepsInv(s, id);
    var s', rec := DeleteNat(s, id).0, s.ifaces[id];
    var nk := NatKey(rec.vni, rec.ip);
    var v := s.nats[nk];
    hide DeleteNat, EntriesOk, IfacesUnique, NatIpsExact, CreateNat;
    if other in s.ifaces && s.ifaces[other].vni == rec.vni && NatKey(rec.vni, s.ifaces[other].ip) !in s'.nats {
      forall a | a in s'.nats && a.vni == rec.vni && s'.nats[a].natIp == v.natIp
        ensures !Blocks(s'.nats[a], v.portMin, v.portMax)
      {
        OverlapIsShared(s'.nats[a], v.portMin, v.portMax);
      }
      NatGrantedIff(s', other, v.natIp, v.portMin, v.portMax);
    }
  }
}
