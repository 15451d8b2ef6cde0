/** Neighbor-NAT slots and counter against the in-memory vector; the datapath scan finds the unique owner. */
module NeighborNat {
  import opened Types

  const NB_MAX_ENTRIES: nat := 64

  datatype Entry = Entry(underlay: Ip6, natIp: Ip4, vni: u32, portMin: u16, portMax: u16, enabled: u8)

  datatype Outcome = Ok | Full | AlreadyExists | NotFound

  predicate SameRange(e: Entry, vni: u32, natIp: Ip4, portMin: u16, portMax: u16) {
    e.vni == vni && e.natIp == natIp && e.portMin == portMin && e.portMax == portMax
  }

  /** An entry that keeps a new one out: same address (in any VNI) and the same or an overlapping range. */
  predicate Clashes(e: Entry, vni: u32, natIp: Ip4, portMin: u16, portMax: u16) {
    e.natIp == natIp && (SameRange(e, vni, natIp, portMin, portMax) || (e.portMin < portMax && e.portMax > portMin))
  }

  predicate Holds(e: Entry, port: u16) { e.portMin <= port < e.portMax }

  /**
   * By ports: a new range that is not empty is kept out exactly by an entry of the address, in any VNI, that
   * holds one of its ports, or that is empty and lies strictly inside.
   */
  lemma ClashesIff(e: Entry, vni: u32, natIp: Ip4, portMin: u16, portMax: u16)
    requires portMin < portMax
    ensures Clashes(e, vni, natIp, portMin, portMax)
       <==> && e.natIp == natIp
            && (|| (exists port: u16 :: Holds(e, port) && portMin <= port < portMax)
                || (e.portMax <= e.portMin && portMin < e.portMax && e.portMin < portMax))
  {
    if e.portMin < e.portMax && e.portMin < portMax && e.portMax > portMin {
      var port := if portMin < e.portMin then e.portMin else portMin;
      assert Holds(e, port);
    }
  }

  predicate Covers(e: Entry, vni: u32, dst: Ip4, port: u16) {
    e.vni == vni && e.natIp == dst && Holds(e, port)
  }

  /** No port of a public address belongs to both entries, whatever their VNIs. */
  ghost predicate Apart(e: Entry, f: Entry) {
    e.natIp == f.natIp ==> forall port: u16 :: !(Holds(e, port) && Holds(f, port))
  }

  ghost predicate PortsDisjoint(es: seq<Entry>) {
    forall i, j | 0 <= i < j < |es| :: Apart(es[i], es[j])
  }

  /** Which entries a call removes: one exact range, or everything of a VNI. */
  datatype Removal = ExactRange(vni: u32, natIp: Ip4, portMin: u16, portMax: u16) | WholeVni(vni: u32) {
    predicate Drops(e: Entry) {
      match this
      case ExactRange(v, a, lo, hi) => SameRange(e, v, a, lo, hi)
      case WholeVni(v) => e.vni == v
    }
  }

  /** The entries left when some are dropped, in order. */
  function Retain(es: seq<Entry>, drop: Removal): seq<Entry> {
    if es == [] then [] else (if drop.Drops(es[0]) then [] else [es[0]]) + Retain(es[1..], drop)
  }

  /** A dropped entry has exactly the range named, or is any entry of the VNI named. */
  lemma DropsIff(e: Entry, vni: u32, natIp: Ip4, portMin: u16, portMax: u16)
    ensures ExactRange(vni, natIp, portMin, portMax).Drops(e)
       <==> e == Entry(e.underlay, natIp, vni, portMin, portMax, e.enabled)
    ensures WholeVni(vni).Drops(e) <==> e.vni == vni
  {
  }

  /** Retaining keeps the order: what is kept of a front part comes first, what is kept of the rest follows. */
  lemma {:induction false} RetainInOrder(front: seq<Entry>, rest: seq<Entry>, drop: Removal)
    ensures Retain(front + rest, drop) == Retain(front, drop) + Retain(rest, drop)
    ensures |rest| == 1 ==> Retain(rest, drop) == if drop.Drops(rest[0]) then [] else rest
  {
    hide Removal.Drops;
    if |rest| == 1 { RetainStep(rest, drop); }
    if front == [] {
      assert front + rest == rest;
    } else {
      var all := front + rest;
      assert all[0] == front[0] && all[1..] == front[1..] + rest;
      RetainStep(all, drop);
      RetainStep(front, drop);
      RetainInOrder(front[1..], rest, drop);
      hide *;
      Regroup(if drop.Drops(front[0]) then [] else [front[0]], Retain(front[1..], drop), Retain(rest, drop));
    }
  }

  lemma Regroup(a: seq<Entry>, b: seq<Entry>, c: seq<Entry>)
    ensures a + (b + c) == a + b + c
  {
  }

  lemma RetainStep(es: seq<Entry>, drop: Removal)
    requires es != []
    ensures Retain(es, drop) == (if drop.Drops(es[0]) then [] else [es[0]]) + Retain(es[1..], drop)
    ensures |es| == 1 ==> Retain(es, drop) == if drop.Drops(es[0]) then [] else es
  {
    hide Removal.Drops;
    assert |es| == 1 ==> es[1..] == [];
  }

  /** What a retained list is: it holds exactly the entries not dropped, and disjoint ranges stay disjoint. */
  lemma {:induction false} RetainFacts(es: seq<Entry>, drop: Removal)
    ensures var r := Retain(es, drop);
            && |r| <= |es|
            && (forall e :: e in r <==> e in es && !drop.Drops(e))
            && (|r| == |es| ==> r == es)
            && (PortsDisjoint(es) ==> PortsDisjoint(r))
  {
    hide PortsDisjoint, Removal.Drops;
    if es != [] {
      RetainFacts(es[1..], drop);
      RetainKeepsDisjoint(es, drop);
      RetainStep(es, drop);
      hide Retain;
      assert forall e :: e in es <==> e == es[0] || e in es[1..];
      assert es == [es[0]] + es[1..];
    }
  }

  /** A list shrinks exactly when something in it is dropped. */
  lemma {:induction false} RetainShrinks(es: seq<Entry>, drop: Removal)
    ensures |Retain(es, drop)| == |es| <==> forall i | 0 <= i < |es| :: !drop.Drops(es[i])
    ensures |Retain(es, drop)| <= |es|
  {
    if es != [] {
      RetainShrinks(es[1..], drop);
      assert forall i | 0 <= i < |es| - 1 :: es[1..][i] == es[i + 1];
      assert forall i | 0 < i < |es| :: es[i] == es[1..][i - 1];
    }
  }

  lemma RetainKeepsDisjoint(es: seq<Entry>, drop: Removal)
    requires es != []
    requires PortsDisjoint(es[1..]) ==> PortsDisjoint(Retain(es[1..], drop))
    requires forall e | e in Retain(es[1..], drop) :: e in es[1..]
    ensures PortsDisjoint(es) ==> PortsDisjoint(Retain(es, drop))
  {
    hide Apart;
    if PortsDisjoint(es) {
      var rest, r := Retain(es[1..], drop), Retain(es, drop);
      forall i, j | 0 <= i < j < |r|
        ensures Apart(r[i], r[j])
      {
        if drop.Drops(es[0]) {
          assert r == rest;
        } else {
          assert r == [es[0]] + rest && r[j] == rest[j - 1];
          if i == 0 {
            assert rest[j - 1] in rest;
            var k :| 0 <= k < |es| - 1 && es[1..][k] == r[j];
            assert es[k + 1] == r[j];
          } else {
            assert r[i] == rest[i - 1];
          }
        }
      }
    }
  }

  class NeighborTable {
    var entries: seq<Entry>
    var slots: map<nat, Entry>
    var count: nat

    /** The first `count` slots are the vector; slots past it may be stale. */
    ghost predicate Valid()
      reads this
    {
      && |entries| <= NB_MAX_ENTRIES && count == |entries|
      && (forall i: nat | i < |entries| :: i in slots && slots[i] == entries[i])
      && (forall i | 0 <= i < |entries| :: entries[i].enabled == 1)
      && PortsDisjoint(entries)
    }

    constructor ()
      ensures Valid() && entries == []
    {
      entries, slots, count := [], map[], 0;
    }

    /** Write the vector over the slots, then the counter. Nothing past the vector is cleared. */
    method Reprogram()
      modifies this`slots, this`count
      ensures count == |entries|
      ensures forall i: nat :: if i < |entries| then i in slots && slots[i] == entries[i]
                               else (i in slots <==> i in old(slots)) && (i in slots ==> slots[i] == old(slots)[i])
    {
      var i := 0;
      while i < |entries|
        invariant i <= |entries|
        invariant forall j: nat :: if j < i then j in slots && slots[j] == entries[j]
                                   else (j in slots <==> j in old(slots)) && (j in slots ==> slots[j] == old(slots)[j])
      {
        slots := slots[i := entries[i]];
        i := i + 1;
      }
      count := |entries|;
    }

    method AddNeighborNat(vni: u32, natIp: Ip4, portMin: u16, portMax: u16, underlay: Ip6) returns (r: Outcome)
      requires Valid()
      modifies this
      ensures Valid()
      ensures r == if |old(entries)| >= NB_MAX_ENTRIES then Full
                   else if exists i | 0 <= i < |old(entries)| :: Clashes(old(entries)[i], vni, natIp, portMin, portMax)
                     then AlreadyExists else Ok
      ensures entries == old(entries) + if r == Ok then [Entry(underlay, natIp, vni, portMin, portMax, 1)] else []
    {
      if |entries| >= NB_MAX_ENTRIES { return Full; }
      if exists i | 0 <= i < |entries| :: Clashes(entries[i], vni, natIp, portMin, portMax) {
        return AlreadyExists;
      }
      var e := Entry(underlay, natIp, vni, portMin, portMax, 1);
      DisjointSnoc(entries, e);
      entries := entries + [e];
      Reprogram();
      r := Ok;
    }

    method DelNeighborNat(vni: u32, natIp: Ip4, portMin: u16, portMax: u16) returns (r: Outcome)
      requires Valid()
      modifies this
      ensures Valid()
      ensures entries == Retain(old(entries), ExactRange(vni, natIp, portMin, portMax))
      ensures r == Ok <==> exists e :: e in old(entries) && SameRange(e, vni, natIp, portMin, portMax)
      ensures r == Ok || r == NotFound
      ensures forall e :: e in entries
                <==> e in old(entries)
                     && !(e.vni == vni && e.natIp == natIp && e.portMin == portMin && e.portMax == portMax)
    {
      var before := entries;
      var drop := ExactRange(vni, natIp, portMin, portMax);
      RetainFacts(before, drop);
      RetainShrinks(before, drop);
      entries := Retain(entries, drop);
      if |entries| == |before| { return NotFound; }
      Enabled(before, entries);
      Reprogram();
      r := Ok;
    }

    /** The purge when the last user of a VNI goes away. */
    method PurgeVni(vni: u32)
      requires Valid()
      modifies this
      ensures Valid() && entries == Retain(old(entries), WholeVni(vni))
      ensures forall e :: e in entries <==> e in old(entries) && e.vni != vni
    {
      var before := entries;
      var drop := WholeVni(vni);
      RetainFacts(before, drop);
      entries := Retain(entries, drop);
      if |entries| != |before| {
        Enabled(before, entries);
        Reprogram();
      }
    }

    /** The datapath scan: the underlay of the one entry that covers the port, if there is one. */
    method Lookup(vni: u32, dst: Ip4, dport: u16) returns (r: Option<Ip6>)
      requires Valid()
      ensures r.None? <==> forall e | e in entries :: !Covers(e, vni, dst, dport)
      ensures r.None? <==> forall e | e in entries && e.vni == vni && e.natIp == dst ::
                             dport < e.portMin || e.portMax <= dport
      ensures forall e | e in entries && Covers(e, vni, dst, dport) :: r == Some(e.underlay)
    {
      var idx := 0;
      while idx < NB_MAX_ENTRIES && idx < count
        invariant idx <= count
        invariant forall i | 0 <= i < idx :: !Covers(entries[i], vni, dst, dport)
      {
        if idx in slots {
          var e := slots[idx];
          if e.enabled != 0 && e.vni == vni && e.natIp == dst && dport >= e.portMin && dport < e.portMax {
            OnlyOwner(entries, idx, vni, dst, dport);
            assert entries[idx] in entries && Covers(entries[idx], vni, dst, dport);
            return Some(e.underlay);
          }
        }
        idx := idx + 1;
      }
      r := None;
    }
  }

  lemma DisjointSnoc(es: seq<Entry>, e: Entry)
    requires PortsDisjoint(es)
    requires forall i | 0 <= i < |es| :: !Clashes(es[i], e.vni, e.natIp, e.portMin, e.portMax)
    ensures PortsDisjoint(es + [e])
  {
  }

  lemma Enabled(es: seq<Entry>, left: seq<Entry>)
    requires forall i | 0 <= i < |es| :: es[i].enabled == 1
    requires forall e | e in left :: e in es
    ensures forall i | 0 <= i < |left| :: left[i].enabled == 1
  {
    forall i | 0 <= i < |left|
      ensures left[i].enabled == 1
    {
      assert left[i] in es;
    }
  }

  /** Two entries never cover the same address and port. */
  lemma OnlyOwner(es: seq<Entry>, i: nat, vni: u32, dst: Ip4, port: u16)
    requires PortsDisjoint(es) && i < |es| && Covers(es[i], vni, dst, port)
    ensures forall e | e in es && Covers(e, vni, dst, port) :: e == es[i]
  {
    forall e | e in es && Covers(e, vni, dst, port)
      ensures e == es[i]
    {
      var j :| 0 <= j < |es| && es[j] == e;
    }
  }
}
