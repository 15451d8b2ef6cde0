/** Firewall slots and counters against the ordered rule list of each interface. */
module Firewall {
  import opened Types
  import opened Bytes
  import opened Packet

  const FW_MAX_RULES: nat := 16
  const INGRESS: u8 := 0
  const EGRESS: u8 := 1
  const DROP: u8 := 0
  const ACCEPT: u8 := 1

  datatype FwRule = FwRule(
    srcIp: Ip4, srcMask: Ip4, dstIp: Ip4, dstMask: Ip4,
    srcPortMin: u16, srcPortMax: u16, dstPortMin: u16, dstPortMax: u16,
    icmpType: u16, icmpCode: u16, proto: u8, action: u8, direction: u8, enabled: u8)

  datatype Selectors = Selectors(
    src: Ip4, dst: Ip4, proto: u8, sport: u16, dport: u16, icmpType: u16, icmpCode: u16)

  /** Bitwise and. */
  function AndBits(a: nat, m: nat): nat {
    if a == 0 || m == 0 then 0 else a % 2 * (m % 2) + 2 * AndBits(a / 2, m / 2)
  }

  predicate MaskedEqual(a: u8, b: u8, mask: u8) { AndBits(a, mask) == AndBits(b, mask) }

  predicate InPrefix(a: Ip4, net: Ip4, mask: Ip4) {
    && MaskedEqual(a.b0, net.b0, mask.b0) && MaskedEqual(a.b1, net.b1, mask.b1)
    && MaskedEqual(a.b2, net.b2, mask.b2) && MaskedEqual(a.b3, net.b3, mask.b3)
  }

  /** Does the rule match? Ports matter for TCP and UDP, type and code for ICMP; 0xffff matches any. */
  predicate Matches(r: FwRule, s: Selectors) {
    && r.enabled != 0
    && (r.proto == 0 || r.proto == s.proto)
    && InPrefix(s.src, r.srcIp, r.srcMask) && InPrefix(s.dst, r.dstIp, r.dstMask)
    && (if s.proto == 6 || s.proto == 17 then
          r.srcPortMin <= s.sport <= r.srcPortMax && r.dstPortMin <= s.dport <= r.dstPortMax
        else if s.proto == 1 then
          (r.icmpType == 0xffff || s.icmpType == r.icmpType) && (r.icmpCode == 0xffff || s.icmpCode == r.icmpCode)
        else true)
  }

  function IcmpTypeCode(p: seq<u8>, ip: nat): (u16, u16) {
    if ip + 22 > |p| || p[ip] as int % 16 != 5 || p[ip + 9] != 1 then (0, 0) else (p[ip + 20], p[ip + 21])
  }

  /** What a rule sees of a packet; unreadable ports count as 0. */
  function SelectorsOf(p: seq<u8>, ip: nat): Selectors
    requires ip + 20 <= |p|
  {
    var src, dst, (t, c) := Addr(p, ip + 12), Addr(p, ip + 16), IcmpTypeCode(p, ip);
    match L4Ports(p, ip)
    case Some((proto, sp, dp)) => Selectors(src, dst, proto, sp, dp, t, c)
    case None => Selectors(src, dst, p[ip + 9], 0, 0, t, c)
  }

  // ---------------------------------------------------------------- the specification: an ordered list

  type Rules = seq<(Id, FwRule)>

  /** The rules of one direction, in order. */
  function InDirection(rules: Rules, dir: u8): seq<FwRule> {
    if rules == [] then []
    else (if rules[0].1.direction == dir then [rules[0].1] else []) + InDirection(rules[1..], dir)
  }

  /** First match wins; no match drops. */
  function FirstMatch(rules: seq<FwRule>, s: Selectors): u8 {
    if rules == [] then DROP
    else if Matches(rules[0], s) then rules[0].action
    else FirstMatch(rules[1..], s)
  }

  /** Whitelist semantics: a direction without rules accepts. */
  function Decision(rules: Rules, dir: u8, s: Selectors): u8 {
    var rs := InDirection(rules, dir);
    if rs == [] then ACCEPT else FirstMatch(rs, s)
  }

  predicate Directed(rules: Rules) { forall i | 0 <= i < |rules| :: rules[i].1.direction <= 1 }

  predicate AllEgress(rules: Rules) { forall i | 0 <= i < |rules| :: rules[i].1.direction == EGRESS }

  /** What the datapath decides: a rule that is not egress counts as ingress, whatever its direction byte. */
  function Evaluated(rules: Rules, dir: u8, s: Selectors): u8 {
    if (if dir == EGRESS then InDirection(rules, EGRESS) == [] else AllEgress(rules)) then ACCEPT
    else FirstMatch(InDirection(rules, dir), s)
  }

  /**
   * That is the whitelist decision exactly unless the direction asked for has no rule but some rule of
   * another, non-egress direction is counted as ingress. In particular for lists of proper directions.
   */
  lemma EvaluatedIsDecisionIff(rules: Rules, dir: u8, s: Selectors)
    ensures Evaluated(rules, dir, s) == Decision(rules, dir, s)
       <==> !(dir != EGRESS && InDirection(rules, dir) == [] && !AllEgress(rules))
    ensures Directed(rules) && dir <= 1 ==> Evaluated(rules, dir, s) == Decision(rules, dir, s)
  {
    InDirectionEmptyIff(rules, dir);
    hide Matches;
  }

  lemma {:induction false} InDirectionEmptyIff(rules: Rules, dir: u8)
    ensures InDirection(rules, dir) == [] <==> forall i | 0 <= i < |rules| :: rules[i].1.direction != dir
  {
    if rules != [] {
      InDirectionEmptyIff(rules[1..], dir);
      assert forall i | 0 < i < |rules| :: rules[i] == rules[1..][i - 1];
      assert forall i | 0 <= i < |rules| - 1 :: rules[1..][i] == rules[i + 1];
    }
  }

  // ---------------------------------------------------------------- state

  datatype Outcome = Ok | NoVm | TooMany | AlreadyExists | NotFound

  datatype SlotKey = SlotKey(ifindex: u32, idx: nat)
  datatype FwMeta = FwMeta(ingressCount: nat, egressCount: nat)

  function ListOf(fw: map<u32, Rules>, ifindex: u32): Rules { if ifindex in fw then fw[ifindex] else [] }

  /** Slots `0..|rules|` hold the list, the others are empty. */
  ghost predicate SlotsHold(slots: map<SlotKey, FwRule>, ifindex: u32, rules: Rules) {
    && |rules| <= FW_MAX_RULES
    && forall i: nat | i < FW_MAX_RULES ::
         if i < |rules| then SlotKey(ifindex, i) in slots && slots[SlotKey(ifindex, i)] == rules[i].1
         else SlotKey(ifindex, i) !in slots
  }

  function CountEgress(rules: Rules): (n: nat)
    ensures n <= |rules|
  {
    if rules == [] then 0
    else CountEgress(rules[..|rules| - 1]) + if rules[|rules| - 1].1.direction == EGRESS then 1 else 0
  }

  ghost predicate IfaceOk(fw: map<u32, Rules>, slots: map<SlotKey, FwRule>, meta: map<u32, FwMeta>, ifindex: u32) {
    var rules := ListOf(fw, ifindex);
    && SlotsHold(slots, ifindex, rules)
    && (if ifindex in meta
        then meta[ifindex] == FwMeta(|rules| - CountEgress(rules), CountEgress(rules))
        else rules == [])
  }

  /** The counters: egress rules, and all others. */
  lemma {:induction false} CountsByDirection(rules: Rules)
    ensures CountEgress(rules) == |InDirection(rules, EGRESS)|
    ensures CountEgress(rules) == |rules| <==> AllEgress(rules)
    ensures Directed(rules) ==> |rules| - CountEgress(rules) == |InDirection(rules, INGRESS)|
  {
    if rules != [] {
      var n := |rules| - 1;
      CountsByDirection(rules[..n]);
      InDirectionSnoc(rules[..n], rules[n], EGRESS);
      InDirectionSnoc(rules[..n], rules[n], INGRESS);
      assert rules == rules[..n] + [rules[n]];
      assert AllEgress(rules) <==> AllEgress(rules[..n]) && rules[n].1.direction == EGRESS;
    }
  }

  lemma {:induction false} InDirectionSnoc(rules: Rules, r: (Id, FwRule), dir: u8)
    ensures InDirection(rules + [r], dir) == InDirection(rules, dir) + if r.1.direction == dir then [r.1] else []
  {
    if rules == [] {
      assert rules + [r] == [r];
    } else {
      assert (rules + [r])[1..] == rules[1..] + [r];
      InDirectionSnoc(rules[1..], r, dir);
    }
  }

  /** Scanning the list from `i` gives the decision of the remaining rules of the direction. */
  function ScanFrom(rules: Rules, dir: u8, s: Selectors, i: nat): u8
    requires i <= |rules|
    decreases |rules| - i
  {
    if i == |rules| then DROP
    else if rules[i].1.direction == dir && Matches(rules[i].1, s) then rules[i].1.action
    else ScanFrom(rules, dir, s, i + 1)
  }

  lemma {:induction false} ScanIsFirstMatch(rules: Rules, dir: u8, s: Selectors, i: nat)
    requires i <= |rules|
    ensures ScanFrom(rules, dir, s, i) == FirstMatch(InDirection(rules[i..], dir), s)
    decreases |rules| - i
  {
    hide Matches;
    if i < |rules| {
      ScanIsFirstMatch(rules, dir, s, i + 1);
      assert rules[i..][1..] == rules[i + 1..];
      var rest := InDirection(rules[i + 1..], dir);
      if rules[i].1.direction == dir {
        var here := [rules[i].1] + rest;
        assert InDirection(rules[i..], dir) == here && here[0] == rules[i].1 && here[1..] == rest;
      } else {
        assert InDirection(rules[i..], dir) == [] + rest == rest;
      }
    }
  }

  class RuleTables {
    var byIfindex: map<Id, u32>
    var fw: map<u32, Rules>
    var slots: map<SlotKey, FwRule>
    var meta: map<u32, FwMeta>

    /** Every interface's slots and counters refine its list. */
    ghost predicate Valid()
      reads this
    {
      forall ifindex: u32 :: IfaceOk(fw, slots, meta, ifindex)
    }

    constructor (ifaces: map<Id, u32>)
      ensures Valid() && byIfindex == ifaces && fw == map[]
    {
      byIfindex, fw, slots, meta := ifaces, map[], map[], map[];
    }

    /** Rewrite all slots and the counters of one interface from its list. */
    method Reprogram(ifindex: u32)
      requires |ListOf(fw, ifindex)| <= FW_MAX_RULES
      requires forall o: u32 | o != ifindex :: IfaceOk(fw, slots, meta, o)
      modifies this`slots, this`meta
      ensures Valid()
      ensures OthersKept(slots, old(slots), ifindex)
      ensures ifindex in meta && meta == old(meta)[ifindex := meta[ifindex]]
    {
      hide CountEgress;
      var rules := ListOf(fw, ifindex);
      var idx := 0;
      while idx < FW_MAX_RULES
        invariant idx <= FW_MAX_RULES
        invariant forall i: nat | i < idx :: SlotKey(ifindex, i) !in slots
        invariant OthersKept(slots, old(slots), ifindex) && meta == old(meta)
      {
        slots := slots - {SlotKey(ifindex, idx)};
        idx := idx + 1;
      }
      var i, ingress, egress := 0, 0, 0;
      CountNone(rules);
      while i < |rules|
        invariant i <= |rules|
        invariant forall j: nat | j < FW_MAX_RULES ::
          if j < i then SlotKey(ifindex, j) in slots && slots[SlotKey(ifindex, j)] == rules[j].1
          else SlotKey(ifindex, j) !in slots
        invariant OthersKept(slots, old(slots), ifindex) && meta == old(meta)
        invariant egress == CountEgress(rules[..i]) <= i && ingress == i - egress
      {
        slots := slots[SlotKey(ifindex, i) := rules[i].1];
        CountSnoc(rules, i);
        if rules[i].1.direction == EGRESS { egress := egress + 1; } else { ingress := ingress + 1; }
        i := i + 1;
      }
      assert rules[..i] == rules;
      meta := meta[ifindex := FwMeta(ingress, egress)];
      forall o: u32
        ensures IfaceOk(fw, slots, meta, o)
      {
        if o != ifindex {
          IfaceFrame(fw, old(slots), slots, old(meta), ifindex, FwMeta(ingress, egress), o);
        } else {
          assert SlotsHold(slots, ifindex, rules);
          assert meta[ifindex] == FwMeta(|rules| - CountEgress(rules), CountEgress(rules));
        }
      }
    }

    method AddFwRule(iface: Id, ruleId: Id, rule: FwRule) returns (r: Outcome)
      requires Valid()
      modifies this`fw, this`slots, this`meta
      ensures Valid()
      ensures iface !in byIfindex ==> r == NoVm && fw == old(fw)
      ensures iface in byIfindex ==>
                var x := byIfindex[iface];
                var rules := ListOf(old(fw), x);
                && (forall o | o != x :: ListOf(fw, o) == ListOf(old(fw), o))
                && r == (if |rules| >= FW_MAX_RULES then TooMany
                         else if exists i | 0 <= i < |rules| :: rules[i].0 == ruleId then AlreadyExists else Ok)
                && ListOf(fw, x) == if r == Ok then rules + [(ruleId, rule)] else rules
    {
      if iface !in byIfindex { return NoVm; }
      var ifindex := byIfindex[iface];
      var entry := ListOf(fw, ifindex);
      assert IfaceOk(fw, slots, meta, ifindex);
      var before := fw;
      fw := fw[ifindex := entry];
      EntryDefault(before, fw, slots, meta, ifindex);
      if |entry| >= FW_MAX_RULES { return TooMany; }
      if exists i | 0 <= i < |entry| :: entry[i].0 == ruleId { return AlreadyExists; }
      fw := fw[ifindex := entry + [(ruleId, rule)]];
      forall o: u32 | o != ifindex
        ensures IfaceOk(fw, slots, meta, o)
      {
        assert IfaceOk(before, slots, meta, o);
      }
      Reprogram(ifindex);
      r := Ok;
    }

    method DelFwRule(iface: Id, ruleId: Id) returns (r: Outcome)
      requires Valid()
      modifies this`fw, this`slots, this`meta
      ensures Valid()
      ensures iface !in byIfindex ==> r == NoVm && fw == old(fw)
      ensures iface in byIfindex ==>
                var x := byIfindex[iface];
                && (forall o | o != x :: ListOf(fw, o) == ListOf(old(fw), o))
                && ListOf(fw, x) == WithoutRule(ListOf(old(fw), x), ruleId)
                && r == if |ListOf(fw, x)| == |ListOf(old(fw), x)| then NotFound else Ok
    {
      if iface !in byIfindex { return NoVm; }
      var ifindex := byIfindex[iface];
      var entry := ListOf(fw, ifindex);
      assert IfaceOk(fw, slots, meta, ifindex);
      var before := fw;
      var left := WithoutRule(entry, ruleId);
      WithoutRuleFacts(entry, ruleId);
      fw := fw[ifindex := left];
      if |left| == |entry| {
        EntryDefault(before, fw, slots, meta, ifindex);
        return NotFound;
      }
      forall o: u32 | o != ifindex
        ensures IfaceOk(fw, slots, meta, o)
      {
        assert IfaceOk(before, slots, meta, o);
      }
      Reprogram(ifindex);
      r := Ok;
    }

    /** The datapath's decision, scanning all slots, is made by the list. Short packets are accepted. */
    method FwEvalDir(p: seq<u8>, ip: nat, ifindex: u32, dir: u8) returns (action: u8)
      requires Valid()
      ensures action == if ip + 20 > |p| then ACCEPT else Evaluated(ListOf(fw, ifindex), dir, SelectorsOf(p, ip))
      ensures Directed(ListOf(fw, ifindex)) && dir <= 1 && ip + 20 <= |p| ==>
                action == Decision(ListOf(fw, ifindex), dir, SelectorsOf(p, ip))
    {
      hide SelectorsOf, Matches, CountEgress, InDirection, Directed, AllEgress;
      if ip + 20 <= |p| { EvaluatedIsDecisionIff(ListOf(fw, ifindex), dir, SelectorsOf(p, ip)); }
      assert IfaceOk(fw, slots, meta, ifindex);
      ghost var rules := ListOf(fw, ifindex);
      CountsByDirection(rules);
      if ifindex !in meta { return ACCEPT; }
      var count := if dir == EGRESS then meta[ifindex].egressCount else meta[ifindex].ingressCount;
      if count == 0 { return ACCEPT; }
      if ip + 20 > |p| { return ACCEPT; }
      var sel := SelectorsOf(p, ip);
      var idx := 0;
      ScanIsFirstMatch(rules, dir, sel, 0);
      assert rules[0..] == rules;
      while idx < FW_MAX_RULES
        invariant idx <= FW_MAX_RULES
        invariant ScanFrom(rules, dir, sel, 0) == if idx <= |rules| then ScanFrom(rules, dir, sel, idx) else DROP
      {
        if SlotKey(ifindex, idx) in slots {
          var r := slots[SlotKey(ifindex, idx)];
          if r.direction == dir && Matches(r, sel) { return r.action; }
        }
        idx := idx + 1;
      }
      action := DROP;
    }
  }

  /** The slots of all other interfaces are as they were. */
  ghost predicate OthersKept(slots: map<SlotKey, FwRule>, before: map<SlotKey, FwRule>, ifindex: u32) {
    forall k: SlotKey | k.ifindex != ifindex :: (k in slots <==> k in before) && (k in slots ==> slots[k] == before[k])
  }

  lemma CountNone(rules: Rules)
    ensures CountEgress(rules[..0]) == 0
  {
  }

  lemma CountSnoc(rules: Rules, i: nat)
    requires i < |rules|
    ensures CountEgress(rules[..i + 1]) == CountEgress(rules[..i]) + if rules[i].1.direction == EGRESS then 1 else 0
  {
    assert rules[..i + 1][..i] == rules[..i];
  }

  /** Creating the default (empty) list entry changes nothing observable. */
  lemma EntryDefault(fw: map<u32, Rules>, fw': map<u32, Rules>, slots: map<SlotKey, FwRule>, meta: map<u32, FwMeta>,
                     ifindex: u32)
    requires fw' == fw[ifindex := ListOf(fw, ifindex)]
    requires forall o: u32 :: IfaceOk(fw, slots, meta, o)
    ensures forall o: u32 :: IfaceOk(fw', slots, meta, o)
  {
    forall o: u32
      ensures IfaceOk(fw', slots, meta, o)
    {
      assert IfaceOk(fw, slots, meta, o);
    }
  }

  /** Reprogramming one interface does not disturb another. */
  lemma IfaceFrame(fw: map<u32, Rules>, slots: map<SlotKey, FwRule>, slots': map<SlotKey, FwRule>,
                   meta: map<u32, FwMeta>, ifindex: u32, m: FwMeta, o: u32)
    requires o != ifindex && OthersKept(slots', slots, ifindex) && IfaceOk(fw, slots, meta, o)
    ensures IfaceOk(fw, slots', meta[ifindex := m], o)
  {
    hide CountEgress;
  }

  /** The list without the rules of that id. */
  function WithoutRule(rules: Rules, id: Id): Rules {
    if rules == [] then []
    else (if rules[0].0 == id then [] else [rules[0]]) + WithoutRule(rules[1..], id)
  }

  lemma {:induction false} WithoutRuleFacts(rules: Rules, id: Id)
    ensures var r := WithoutRule(rules, id);
            && |r| <= |rules| && (|r| == |rules| ==> r == rules)
            && forall i | 0 <= i < |r| :: r[i].0 != id && r[i] in rules
  {
    if rules != [] {
      WithoutRuleFacts(rules[1..], id);
    }
  }
}
