/** Load-balancer control calls over the service and slot maps, and the datapath's backend selection. */
module LoadBalancer {
  import opened Types
  import opened Bytes
  import opened Maps
  import opened Packet
  import opened Maglev

  datatype LbKey = LbKey(vni: u32, ip: Ip4, port: u16, proto: u8)
  datatype LbValue = LbValue(tableId: u32, size: u32)
  datatype SlotKey = SlotKey(tableId: u32, slot: nat)

  /** `ip` holds the last four bytes of the service address. */
  datatype LbEntry = LbEntry(vni: u32, ip: Ip4, ports: seq<(u16, u8)>, tableId: u32, backends: seq<Ip6>)

  datatype State = State(
    lbs: map<Id, LbEntry>,
    services: map<LbKey, LbValue>,
    slots: map<SlotKey, Ip6>,
    nextTable: u32)

  const INIT := State(map[], map[], map[], 1)

  datatype Outcome = Ok | Exists | Unknown | Absent

  /** The service keys of an address with its (port, protocol) list. */
  function Keys(vni: u32, ip: Ip4, ports: seq<(u16, u8)>): set<LbKey> {
    set j | 0 <= j < |ports| :: LbKey(vni, ip, ports[j].0, ports[j].1)
  }

  function KeysOf(e: LbEntry): set<LbKey> { Keys(e.vni, e.ip, e.ports) }

  function SlotsOf(tableId: u32): set<SlotKey> { set i | 0 <= i < TABLE_SIZE :: SlotKey(tableId, i) }

  /** All slots of a table, each holding the backend the Maglev table names. */
  function Programmed(tableId: u32, backends: seq<Ip6>): map<SlotKey, Ip6>
    requires backends != []
  {
    TableComplete(backends);
    map k | k in SlotsOf(tableId) :: backends[Table(backends)[k.slot]]
  }

  /** Map every key of a set to the same value. */
  function Bind(m: map<LbKey, LbValue>, keys: set<LbKey>, v: LbValue): map<LbKey, LbValue> {
    m + (map k | k in keys :: v)
  }

  function CreateLb(s: State, id: Id, vni: u32, ip: Ip4, ports: seq<(u16, u8)>): (State, Outcome) {
    if id in s.lbs then (s, Exists) else
    var e := LbEntry(vni, ip, ports, s.nextTable, []);
    (State(s.lbs[id := e],
           Bind(s.services, KeysOf(e), LbValue(s.nextTable, TABLE_SIZE)),
           s.slots,
           (s.nextTable + 1) % 0x1_0000_0000), Ok)
  }

  /** Give a balancer a new backend list and reprogram its slots. */
  function SetTargets(s: State, id: Id, bs: seq<Ip6>): State
    requires id in s.lbs
  {
    var e := s.lbs[id].(backends := bs);
    s.(lbs := s.lbs[id := e],
       slots := if bs == [] then s.slots - SlotsOf(e.tableId) else s.slots + Programmed(e.tableId, bs))
  }

  function AddTarget(s: State, id: Id, b: Ip6): (State, Outcome) {
    if id !in s.lbs then (s, Unknown)
    else if b in s.lbs[id].backends then (s, Exists)
    else (SetTargets(s, id, s.lbs[id].backends + [b]), Ok)
  }

  function Without(bs: seq<Ip6>, b: Ip6): (r: seq<Ip6>)
    ensures b !in r && |r| <= |bs|
    ensures forall x | x != b :: x in r <==> x in bs
    ensures |r| == |bs| <==> b !in bs
  {
    if bs == [] then []
    else if bs[0] == b then Without(bs[1..], b)
    else [bs[0]] + Without(bs[1..], b)
  }

  function DelTarget(s: State, id: Id, b: Ip6): (State, Outcome) {
    if id !in s.lbs then (s, Unknown) else
    var left := Without(s.lbs[id].backends, b);
    if |left| == |s.lbs[id].backends| then (s, Absent) else (SetTargets(s, id, left), Ok)
  }

  function DeleteLb(s: State, id: Id): (State, Outcome) {
    if id !in s.lbs then (s, Absent) else
    var e := s.lbs[id];
    (State(s.lbs - {id}, s.services - KeysOf(e), s.slots - SlotsOf(e.tableId), s.nextTable), Ok)
  }

  // ---------------------------------------------------------------- the datapath

  /** Backend for a service key and flow hash. */
  function Select(s: State, key: LbKey, hash: u32): Option<Ip6> {
    if key !in s.services || s.services[key].size == 0 then None else
    var v := s.services[key];
    var k := SlotKey(v.tableId, hash % v.size);
    if k in s.slots then Some(s.slots[k]) else None
  }

  /** Selection for a packet: ICMP services are keyed by port 0. */
  function SelectForward(s: State, p: seq<u8>, ip: nat, vni: u32): Option<Ip6> {
    if ip + 20 > |p| then None else
    var src, dst := Addr(p, ip + 12), Addr(p, ip + 16);
    match L4Ports(p, ip)
    case None => None
    case Some((proto, sport, dport)) =>
      Select(s, LbKey(vni, dst, if proto == 1 then 0 else dport, proto), Hash5(src, dst, sport, dport, proto))
  }

  // ---------------------------------------------------------------- the invariant

  predicate NoDup(bs: seq<Ip6>) { forall i, j | 0 <= i < j < |bs| :: bs[i] != bs[j] }

  /** MAGLEV holds all slots of the table, as the builder lays them out, or none. */
  ghost predicate SlotsMatch(slots: map<SlotKey, Ip6>, e: LbEntry) {
    if e.backends == [] then forall k | k in slots :: k.tableId != e.tableId
    else forall k: SlotKey | k.tableId == e.tableId ::
           && (k in slots <==> k in SlotsOf(e.tableId))
           && (k in slots ==> slots[k] == Programmed(e.tableId, e.backends)[k])
  }

  /** Live balancers hold different, already issued table ids and disjoint service keys. */
  ghost predicate LbsOk(lbs: map<Id, LbEntry>, nextTable: u32) {
    && (forall id | id in lbs :: 1 <= lbs[id].tableId < nextTable && NoDup(lbs[id].backends))
    && (forall i, j | i in lbs && j in lbs && i != j :: lbs[i].tableId != lbs[j].tableId)
    && (forall i, j | i in lbs && j in lbs && i != j :: KeysOf(lbs[i]) !! KeysOf(lbs[j]))
  }

  predicate TableOf(lbs: map<Id, LbEntry>, id: Id, t: u32) { id in lbs && lbs[id].tableId == t }

  /** Some live balancer has the table. */
  ghost predicate TableLive(lbs: map<Id, LbEntry>, t: u32) { exists id :: TableOf(lbs, id, t) }

  /** Live tables are programmed as their lists demand, and no slot of any other table exists. */
  ghost predicate SlotsOk(lbs: map<Id, LbEntry>, slots: map<SlotKey, Ip6>) {
    && (forall id | id in lbs :: SlotsMatch(slots, lbs[id]))
    && (forall k | k in slots :: TableLive(lbs, k.tableId))
  }

  ghost predicate Owned(lbs: map<Id, LbEntry>, k: LbKey) { exists id | id in lbs :: k in KeysOf(lbs[id]) }

  /** The service map holds exactly the live balancers' keys, each with its balancer's table. */
  ghost predicate ServicesOk(lbs: map<Id, LbEntry>, services: map<LbKey, LbValue>) {
    && (forall id, k | id in lbs && k in KeysOf(lbs[id]) ::
          k in services && services[k] == LbValue(lbs[id].tableId, TABLE_SIZE))
    && (forall k | k in services :: Owned(lbs, k))
  }

  ghost predicate Inv(s: State) {
    LbsOk(s.lbs, s.nextTable) && SlotsOk(s.lbs, s.slots) && ServicesOk(s.lbs, s.services)
  }

  lemma CreateServices(lbs: map<Id, LbEntry>, services: map<LbKey, LbValue>, id: Id, e: LbEntry)
    requires ServicesOk(lbs, services) && id !in lbs
    requires forall i | i in lbs :: KeysOf(lbs[i]) !! KeysOf(e)
    ensures ServicesOk(lbs[id := e], Bind(services, KeysOf(e), LbValue(e.tableId, TABLE_SIZE)))
  {
    hide KeysOf;
    var lbs', services' := lbs[id := e], Bind(services, KeysOf(e), LbValue(e.tableId, TABLE_SIZE));
    forall k | k in services'
      ensures Owned(lbs', k)
    {
      if k in KeysOf(e) {
        assert k in KeysOf(lbs'[id]);
      } else {
        var i :| i in lbs && k in KeysOf(lbs[i]);
        assert k in KeysOf(lbs'[i]);
      }
    }
  }

  lemma NoDupEmpty()
    ensures NoDup([])
  {
  }

  /** Replacing or adding an entry keeps the tables of the others, and its own if that stays the same. */
  lemma LiveGrows(lbs: map<Id, LbEntry>, slots: map<SlotKey, Ip6>, id: Id, e: LbEntry)
    requires id in lbs ==> e.tableId == lbs[id].tableId
    requires forall k | k in slots :: TableLive(lbs, k.tableId)
    ensures forall k | k in slots :: TableLive(lbs[id := e], k.tableId)
  {
    forall k | k in slots
      ensures TableLive(lbs[id := e], k.tableId)
    {
      var i :| TableOf(lbs, i, k.tableId);
      assert TableOf(lbs[id := e], i, k.tableId);
    }
  }

  /** An id beyond all issued ones is no live balancer's. */
  lemma FreshNotLive(lbs: map<Id, LbEntry>, nextTable: u32)
    requires LbsOk(lbs, nextTable)
    ensures !TableLive(lbs, nextTable)
  {
    hide NoDup, KeysOf;
  }

  /** A table id that no live balancer has has no slots. */
  lemma CreateSlots(lbs: map<Id, LbEntry>, slots: map<SlotKey, Ip6>, id: Id, e: LbEntry)
    requires id !in lbs && e.backends == [] && !TableLive(lbs, e.tableId) && SlotsOk(lbs, slots)
    ensures SlotsOk(lbs[id := e], slots)
  {
    hide SlotsOf, Programmed;
    LiveGrows(lbs, slots, id, e);
    forall i | i in lbs
      ensures SlotsMatch(slots, lbs[id := e][i])
    {
      assert SlotsMatch(slots, lbs[i]);
    }
  }

  lemma CreateLbsOk(lbs: map<Id, LbEntry>, nextTable: u32, id: Id, e: LbEntry)
    requires LbsOk(lbs, nextTable) && id !in lbs && e.tableId == nextTable && 1 <= nextTable < 0xffff_ffff
    requires NoDup(e.backends)
    requires forall i | i in lbs :: KeysOf(lbs[i]) !! KeysOf(e)
    ensures LbsOk(lbs[id := e], nextTable + 1)
  {
    hide KeysOf, NoDup;
  }

  lemma CreateKeepsInv(s: State, id: Id, vni: u32, ip: Ip4, ports: seq<(u16, u8)>)
    requires Inv(s) && 1 <= s.nextTable < 0xffff_ffff
    requires forall i | i in s.lbs :: KeysOf(s.lbs[i]) !! Keys(vni, ip, ports)
    ensures Inv(CreateLb(s, id, vni, ip, ports).0)
  {
    hide SlotsOf, Programmed, Keys, ServicesOk, SlotsOk, NoDup, LbsOk;
    if id !in s.lbs {
      var e := LbEntry(vni, ip, ports, s.nextTable, []);
      NoDupEmpty();
      FreshNotLive(s.lbs, s.nextTable);
      CreateLbsOk(s.lbs, s.nextTable, id, e);
      CreateSlots(s.lbs, s.slots, id, e);
      CreateServices(s.lbs, s.services, id, e);
    }
  }

  /** Services do not depend on backend lists. */
  lemma RetargetServices(lbs: map<Id, LbEntry>, services: map<LbKey, LbValue>, id: Id, e: LbEntry)
    requires ServicesOk(lbs, services) && id in lbs && KeysOf(e) == KeysOf(lbs[id]) && e.tableId == lbs[id].tableId
    ensures ServicesOk(lbs[id := e], services)
  {
    hide KeysOf;
    var lbs' := lbs[id := e];
    forall k | k in services
      ensures Owned(lbs', k)
    {
      var i :| i in lbs && k in KeysOf(lbs[i]);
      assert k in KeysOf(lbs'[i]);
    }
  }

  lemma RetargetLive(s: State, id: Id, bs: seq<Ip6>)
    requires id in s.lbs && forall k | k in s.slots :: TableLive(s.lbs, k.tableId)
    ensures var s' := SetTargets(s, id, bs); forall k | k in s'.slots :: TableLive(s'.lbs, k.tableId)
  {
    hide SlotsOf, Programmed, TableLive;
    var s', e := SetTargets(s, id, bs), s.lbs[id].(backends := bs);
    SlotsOfTable(e.tableId);
    LiveGrows(s.lbs, s.slots, id, e);
    OwnTableLive(s'.lbs, id);
  }

  lemma OwnTableLive(lbs: map<Id, LbEntry>, id: Id)
    requires id in lbs
    ensures TableLive(lbs, lbs[id].tableId)
  {
    assert TableOf(lbs, id, lbs[id].tableId);
  }

  lemma RetargetSlots(s: State, id: Id, bs: seq<Ip6>)
    requires LbsOk(s.lbs, s.nextTable) && SlotsOk(s.lbs, s.slots) && id in s.lbs
    ensures var s' := SetTargets(s, id, bs); SlotsOk(s'.lbs, s'.slots)
  {
    hide SetTargets, LbsOk, SlotsMatch, TableLive;
    RetargetLive(s, id, bs);
    RetargetMatches(s, id, bs);
  }

  lemma RetargetMatches(s: State, id: Id, bs: seq<Ip6>)
    requires LbsOk(s.lbs, s.nextTable) && id in s.lbs && forall i | i in s.lbs :: SlotsMatch(s.slots, s.lbs[i])
    ensures var s' := SetTargets(s, id, bs); forall i | i in s'.lbs :: SlotsMatch(s'.slots, s'.lbs[i])
  {
    hide SlotsOf, Programmed, Keys, KeysOf, Table, NoDup;
    var s', e := SetTargets(s, id, bs), s.lbs[id];
    SlotsOfTable(e.tableId);
    assert SlotsMatch(s.slots, e);
    forall i | i in s'.lbs && i != id
      ensures SlotsMatch(s'.slots, s'.lbs[i])
    {
      assert s'.lbs[i] == s.lbs[i] && s.lbs[i].tableId != e.tableId;
      assert SlotsMatch(s.slots, s.lbs[i]);
    }
  }

  lemma SetTargetsKeepsInv(s: State, id: Id, bs: seq<Ip6>)
    requires Inv(s) && id in s.lbs && NoDup(bs)
    ensures Inv(SetTargets(s, id, bs))
  {
    hide SlotsOf, Programmed, Keys, NoDup, SlotsOk, ServicesOk;
    RetargetSlots(s, id, bs);
    RetargetServices(s.lbs, s.services, id, s.lbs[id].(backends := bs));
  }

  lemma SlotsOfTable(t: u32)
    ensures forall k | k in SlotsOf(t) :: k.tableId == t
    ensures forall bs: seq<Ip6> | bs != [] :: Programmed(t, bs).Keys == SlotsOf(t)
  {
    forall bs: seq<Ip6> | bs != []
      ensures Programmed(t, bs).Keys == SlotsOf(t)
    {
      hide Table;
    }
  }

  lemma AddKeepsInv(s: State, id: Id, b: Ip6)
    requires Inv(s)
    ensures Inv(AddTarget(s, id, b).0)
  {
    hide Inv, Programmed, SlotsOf;
    if AddTarget(s, id, b).1 == Ok {
      var bs := s.lbs[id].backends;
      NoDupOf(s, id);
      SetTargetsKeepsInv(s, id, bs + [b]);
    }
  }

  lemma NoDupOf(s: State, id: Id)
    requires Inv(s) && id in s.lbs
    ensures NoDup(s.lbs[id].backends)
  {
  }

  lemma DelKeepsInv(s: State, id: Id, b: Ip6)
    requires Inv(s)
    ensures Inv(DelTarget(s, id, b).0)
  {
    hide Inv, Programmed, SlotsOf;
    if DelTarget(s, id, b).1 == Ok {
      NoDupOf(s, id);
      WithoutNoDup(s.lbs[id].backends, b);
      SetTargetsKeepsInv(s, id, Without(s.lbs[id].backends, b));
    }
  }

  lemma {:induction false} WithoutNoDup(bs: seq<Ip6>, b: Ip6)
    requires NoDup(bs)
    ensures NoDup(Without(bs, b))
  {
    if bs != [] {
      WithoutNoDup(bs[1..], b);
      assert bs[0] !in bs[1..];
    }
  }

  lemma DeleteServices(s: State, id: Id)
    requires LbsOk(s.lbs, s.nextTable) && ServicesOk(s.lbs, s.services) && id in s.lbs
    ensures ServicesOk(s.lbs - {id}, s.services - KeysOf(s.lbs[id]))
  {
    hide KeysOf, NoDup;
    var lbs', services' := s.lbs - {id}, s.services - KeysOf(s.lbs[id]);
    forall k | k in services'
      ensures Owned(lbs', k)
    {
      var i :| i in s.lbs && k in KeysOf(s.lbs[i]);
      assert i != id && k in KeysOf(lbs'[i]);
    }
  }

  lemma DeleteSlots(s: State, id: Id)
    requires LbsOk(s.lbs, s.nextTable) && SlotsOk(s.lbs, s.slots) && id in s.lbs
    ensures SlotsOk(s.lbs - {id}, s.slots - SlotsOf(s.lbs[id].tableId))
  {
    hide SlotsOf, Programmed, KeysOf, NoDup;
    var t := s.lbs[id].tableId;
    SlotsOfTable(t);
    assert SlotsMatch(s.slots, s.lbs[id]);
    forall k | k in s.slots - SlotsOf(t)
      ensures TableLive(s.lbs - {id}, k.tableId)
    {
      var i :| TableOf(s.lbs, i, k.tableId);
      assert i != id;
      assert TableOf(s.lbs - {id}, i, k.tableId);
    }
    forall i | i in s.lbs && i != id
      ensures SlotsMatch(s.slots - SlotsOf(t), s.lbs[i])
    {
      assert SlotsMatch(s.slots, s.lbs[i]) && s.lbs[i].tableId != t;
    }
  }

  lemma DeleteKeepsInv(s: State, id: Id)
    requires Inv(s)
    ensures Inv(DeleteLb(s, id).0)
  {
    hide SlotsOf, KeysOf, NoDup, SlotsOk, ServicesOk;
    if id in s.lbs {
      DeleteSlots(s, id);
      DeleteServices(s, id);
    }
  }

  // ---------------------------------------------------------------- whole runs

  datatype Step =
    | Create(id: Id, vni: u32, ip: Ip4, ports: seq<(u16, u8)>)
    | Add(id: Id, backend: Ip6)
    | Remove(id: Id, backend: Ip6)
    | Delete(id: Id)

  function Apply(s: State, t: Step): State {
    match t
    case Create(id, vni, ip, ports) => CreateLb(s, id, vni, ip, ports).0
    case Add(id, b) => AddTarget(s, id, b).0
    case Remove(id, b) => DelTarget(s, id, b).0
    case Delete(id) => DeleteLb(s, id).0
  }

  /** A new balancer must not claim a service key of a live one, and table ids must not run out. */
  ghost predicate Allowed(s: State, t: Step) {
    t.Create? ==>
      s.nextTable < 0xffff_ffff && forall i | i in s.lbs :: KeysOf(s.lbs[i]) !! Keys(t.vni, t.ip, t.ports)
  }

  function Run(s: State, steps: seq<Step>): State
    decreases |steps|
  {
    if steps == [] then s else Run(Apply(s, steps[0]), steps[1..])
  }

  ghost predicate AllowedRun(s: State, steps: seq<Step>)
    decreases |steps|
  {
    steps == [] || (Allowed(s, steps[0]) && AllowedRun(Apply(s, steps[0]), steps[1..]))
  }

  lemma {:induction false} RunKeepsInv(s: State, steps: seq<Step>)
    requires Inv(s) && s.nextTable >= 1 && AllowedRun(s, steps)
    ensures Inv(Run(s, steps))
    ensures Run(s, steps).nextTable >= s.nextTable
    decreases |steps|
  {
    hide Inv, Programmed, SlotsOf, Keys, Without;
    if steps != [] {
      match steps[0] {
        case Create(id, vni, ip, ports) => CreateKeepsInv(s, id, vni, ip, ports);
        case Add(id, b) => AddKeepsInv(s, id, b);
        case Remove(id, b) => DelKeepsInv(s, id, b);
        case Delete(id) => DeleteKeepsInv(s, id);
      }
      RunKeepsInv(Apply(s, steps[0]), steps[1..]);
    }
  }

  /** The table id a step issues, read off the record it creates. */
  function Issue(s: State, t: Step): Option<u32> {
    if t.Create? && t.id !in s.lbs then Some(Apply(s, t).lbs[t.id].tableId) else None
  }

  /** The table ids a run issues, in order. */
  function Issued(s: State, steps: seq<Step>): seq<u32>
    decreases |steps|
  {
    if steps == [] then []
    else
      var rest := Issued(Apply(s, steps[0]), steps[1..]);
      match Issue(s, steps[0])
      case None => rest
      case Some(t) => [t] + rest
  }

  /** All at least `low`, and each larger than all before it. */
  predicate Ascending(ids: seq<u32>, low: nat) {
    (forall i | 0 <= i < |ids| :: low <= ids[i]) && (forall i, j | 0 <= i < j < |ids| :: ids[i] < ids[j])
  }

  /**
   * No table id is issued twice in a run: each granted creation gets a larger one than all before it,
   * whatever balancers were deleted in between and whether or not keys overlap, until the counter wraps.
   */
  lemma {:induction false} TableIdsNeverReused(s: State, steps: seq<Step>)
    requires s.nextTable + |steps| < 0x1_0000_0000
    ensures Ascending(Issued(s, steps), s.nextTable)
    decreases |steps|
  {
    hide Apply, Issue, Ascending;
    if steps == [] {
      AscendingEmpty(s.nextTable);
    } else {
      CounterStep(s, steps[0]);
      TableIdsNeverReused(Apply(s, steps[0]), steps[1..]);
      if Issue(s, steps[0]).Some? {
        AscendingCons(s.nextTable, Issued(Apply(s, steps[0]), steps[1..]));
      }
    }
  }

  lemma AscendingEmpty(low: nat)
    ensures Ascending([], low)
  {
  }

  lemma AscendingCons(x: u32, rest: seq<u32>)
    requires Ascending(rest, x + 1)
    ensures Ascending([x] + rest, x)
  {
  }

  /** A step issues the counter's value and then counts on, or leaves the counter alone. */
  lemma CounterStep(s: State, t: Step)
    requires s.nextTable + 1 < 0x1_0000_0000
    ensures Issue(s, t).Some? ==> Issue(s, t).value == s.nextTable && Apply(s, t).nextTable == s.nextTable + 1
    ensures Issue(s, t).None? ==> Apply(s, t).nextTable == s.nextTable
  {
    hide Keys, Programmed, SlotsOf, Without, Bind;
  }

  /** Whatever table has a slot in a reachable state belongs to a live balancer with backends, and is complete. */
  lemma SlotsAreLive(steps: seq<Step>, k: SlotKey)
    requires AllowedRun(INIT, steps) && k in Run(INIT, steps).slots
    ensures var s := Run(INIT, steps);
            && (exists id | id in s.lbs :: s.lbs[id].tableId == k.tableId && s.lbs[id].backends != [])
            && (forall i | 0 <= i < TABLE_SIZE :: SlotKey(k.tableId, i) in s.slots)
  {
    assert Inv(INIT);
    RunKeepsInv(INIT, steps);
    var s := Run(INIT, steps);
    hide Run, AllowedRun, LbsOk, ServicesOk, SlotsMatch;
    var id :| TableOf(s.lbs, id, k.tableId);
    WholeTable(s.slots, s.lbs[id], k);
  }

  /** A slot of a matching table says that there are backends and that the table is all there. */
  lemma WholeTable(slots: map<SlotKey, Ip6>, e: LbEntry, k: SlotKey)
    requires SlotsMatch(slots, e) && k in slots && k.tableId == e.tableId
    ensures e.backends != [] && forall i | 0 <= i < TABLE_SIZE :: SlotKey(e.tableId, i) in slots
  {
    hide Programmed;
    forall i | 0 <= i < TABLE_SIZE
      ensures SlotKey(e.tableId, i) in slots
    {
      assert SlotKey(e.tableId, i) in SlotsOf(e.tableId);
    }
  }

  /** What the datapath selects for a live balancer's key: the backend the table names, if there is any. */
  lemma SelectLive(s: State, id: Id, key: LbKey, hash: u32)
    requires Inv(s) && id in s.lbs && key in KeysOf(s.lbs[id])
    ensures var bs, r := s.lbs[id].backends, Select(s, key, hash);
            && (r.None? <==> bs == [])
            && (r.Some? ==> SlotOwner(bs, hash).Some? && r == SlotOwner(bs, hash))
  {
    hide Table, KeysOf, NoDup;
    var e := s.lbs[id];
    var k := SlotKey(e.tableId, hash % TABLE_SIZE);
    assert SlotsMatch(s.slots, e) && k in SlotsOf(e.tableId);
    if e.backends != [] { TableComplete(e.backends); }
  }

  /** The backend the table of a list gives to a flow hash. */
  function SlotOwner(bs: seq<Ip6>, hash: u32): (r: Option<Ip6>)
    ensures r.Some? <==> bs != []
    ensures r.Some? ==> r.value in bs
  {
    if bs == [] then None
    else
      TableComplete(bs);
      Some(bs[Table(bs)[hash % TABLE_SIZE]])
  }

  /**
   * In every reachable state: a live balancer's key selects exactly the table's backend for the hash,
   * hence nothing precisely when the list is empty; a key nobody owns selects nothing.
   */
  lemma SelectionIsSafe(steps: seq<Step>, id: Id, key: LbKey, hash: u32)
    requires AllowedRun(INIT, steps)
    ensures var s := Run(INIT, steps);
            && (id in s.lbs && key in KeysOf(s.lbs[id]) ==> Select(s, key, hash) == SlotOwner(s.lbs[id].backends, hash))
            && (!Owned(s.lbs, key) ==> Select(s, key, hash) == None)
  {
    assert Inv(INIT);
    RunKeepsInv(INIT, steps);
    var s := Run(INIT, steps);
    hide Table, KeysOf, Run, AllowedRun, LbsOk, SlotsOk, SlotOwner;
    if id in s.lbs && key in KeysOf(s.lbs[id]) {
      SelectLive(s, id, key, hash);
    }
  }

  /** The service key and hash of a packet. */
  lemma ForwardSelects(s: State, p: seq<u8>, ip: nat, vni: u32, k: CtKey)
    requires KeyOf(p, ip, vni) == Some(k)
    ensures SelectForward(s, p, ip, vni)
         == Select(s, LbKey(vni, k.dst, if k.proto == 1 then 0 else k.dport, k.proto),
                   Hash5(k.src, k.dst, k.sport, k.dport, k.proto))
  {
    hide Select, Hash5, L4Ports;
  }

  /**
   * Per packet, in every reachable state: a packet to a live balancer's service goes to the backend its
   * 5-tuple owns in the balancer's table, so packets of one flow stay together; others are not balanced.
   */
  lemma ForwardIsSafe(steps: seq<Step>, p: seq<u8>, ip: nat, vni: u32, k: CtKey, id: Id)
    requires AllowedRun(INIT, steps) && KeyOf(p, ip, vni) == Some(k)
    ensures var s, key := Run(INIT, steps), LbKey(vni, k.dst, if k.proto == 1 then 0 else k.dport, k.proto);
            && (id in s.lbs && key in KeysOf(s.lbs[id]) ==>
                  SelectForward(s, p, ip, vni)
                  == SlotOwner(s.lbs[id].backends, Hash5(k.src, k.dst, k.sport, k.dport, k.proto)))
            && (!Owned(s.lbs, key) ==> SelectForward(s, p, ip, vni) == None)
  {
    hide *;
    var key := LbKey(vni, k.dst, if k.proto == 1 then 0 else k.dport, k.proto);
    ForwardSelects(Run(INIT, steps), p, ip, vni, k);
    SelectionIsSafe(steps, id, key, Hash5(k.src, k.dst, k.sport, k.dport, k.proto));
  }

  /** A removed backend is selected no more, whatever the key and the flow. */
  lemma RemovedBackendIsGone(s: State, id: Id, b: Ip6, key: LbKey, hash: u32)
    requires Inv(s) && id in s.lbs && key in KeysOf(s.lbs[id])
    ensures Select(DelTarget(s, id, b).0, key, hash) != Some(b)
  {
    hide Inv, Table, Keys, Select, Programmed, SlotsOf;
    DelKeepsInv(s, id, b);
    SameLength(s.lbs[id].backends, b);
    SelectLive(DelTarget(s, id, b).0, id, key, hash);
  }

  lemma {:induction false} SameLength(bs: seq<Ip6>, b: Ip6)
    ensures |Without(bs, b)| == |bs| ==> Without(bs, b) == bs
  {
    if bs != [] {
      SameLength(bs[1..], b);
    }
  }

  // ---------------------------------------------------------------- shared keys, exactly

  /**
   * A flow served through another table survives a deletion exactly when the deleted balancer does not list its
   * key.
   */
  lemma DeleteKeepsSelectionIff(s: State, gone: Id, key: LbKey, hash: u32)
    requires gone in s.lbs && Select(s, key, hash).Some? && s.services[key].tableId != s.lbs[gone].tableId
    ensures Select(DeleteLb(s, gone).0, key, hash) == Select(s, key, hash) <==> key !in KeysOf(s.lbs[gone])
    ensures key in KeysOf(s.lbs[gone]) ==> Select(DeleteLb(s, gone).0, key, hash) == None
  {
    SlotsOfTable(s.lbs[gone].tableId);
    hide SlotsOf, KeysOf;
  }

  /** A served flow survives a creation exactly when the new balancer does not claim its key. */
  lemma CreateKeepsSelectionIff(s: State, id: Id, vni: u32, ip: Ip4, ports: seq<(u16, u8)>, key: LbKey, hash: u32)
    requires id !in s.lbs && Select(s, key, hash).Some? && forall k | k in s.slots :: k.tableId != s.nextTable
    ensures Select(CreateLb(s, id, vni, ip, ports).0, key, hash) == Select(s, key, hash)
       <==> key !in Keys(vni, ip, ports)
    ensures key in Keys(vni, ip, ports) ==> Select(CreateLb(s, id, vni, ip, ports).0, key, hash) == None
  {
    hide Keys;
  }

  /** Every flow that is served keeps its backend. */
  ghost predicate Undisturbed(s: State, s': State) {
    forall key, hash :: Select(s, key, hash).Some? ==> Select(s', key, hash) == Select(s, key, hash)
  }

  /**
   * In a state without shared keys, a granted creation disturbs no served flow exactly when the new
   * balancer claims no key of a live balancer that has backends.
   */
  lemma CreateUndisturbedIff(s: State, id: Id, vni: u32, ip: Ip4, ports: seq<(u16, u8)>)
    requires Inv(s) && id !in s.lbs
    ensures Undisturbed(s, CreateLb(s, id, vni, ip, ports).0)
       <==> forall i | i in s.lbs && s.lbs[i].backends != [] :: KeysOf(s.lbs[i]) !! Keys(vni, ip, ports)
  {
    hide Inv, Select, Keys, KeysOf, CreateLb;
    var s' := CreateLb(s, id, vni, ip, ports).0;
    NoFreshSlots(s);
    if Undisturbed(s, s') {
      forall i | i in s.lbs && s.lbs[i].backends != []
        ensures KeysOf(s.lbs[i]) !! Keys(vni, ip, ports)
      {
        forall key | key in KeysOf(s.lbs[i])
          ensures key !in Keys(vni, ip, ports)
        {
          SelectLive(s, i, key, 0);
          CreateKeepsSelectionIff(s, id, vni, ip, ports, key, 0);
        }
      }
    } else {
      var key, hash :| Select(s, key, hash).Some? && Select(s', key, hash) != Select(s, key, hash);
      CreateKeepsSelectionIff(s, id, vni, ip, ports, key, hash);
      var i := ServedByLive(s, key, hash);
      assert key in KeysOf(s.lbs[i]) && key in Keys(vni, ip, ports);
    }
  }

  lemma NoFreshSlots(s: State)
    requires Inv(s)
    ensures forall k | k in s.slots :: k.tableId != s.nextTable
  {
    FreshNotLive(s.lbs, s.nextTable);
    hide LbsOk, ServicesOk, SlotsMatch;
  }

  lemma ServedByLive(s: State, key: LbKey, hash: u32) returns (i: Id)
    requires Inv(s) && Select(s, key, hash).Some?
    ensures i in s.lbs && key in KeysOf(s.lbs[i]) && s.lbs[i].backends != []
  {
    hide KeysOf, SlotsOk, LbsOk;
    i :| i in s.lbs && key in KeysOf(s.lbs[i]);
    SelectLive(s, i, key, hash);
  }

  /**
   * Creating a balancer and deleting it again takes a served flow down exactly when the newcomer listed
   * its key, although the balancer that served it still has the backends it had.
   */
  lemma SharedKeyLosesServiceIff(
      s: State, first: Id, second: Id, vni: u32, ip: Ip4, ports: seq<(u16, u8)>, key: LbKey, hash: u32)
    requires Inv(s) && first in s.lbs && second !in s.lbs && key in KeysOf(s.lbs[first]) && Select(s, key, hash).Some?
    ensures var s' := DeleteLb(CreateLb(s, second, vni, ip, ports).0, second).0;
            && first in s'.lbs && s'.lbs[first] == s.lbs[first]
            && Select(s', key, hash) == if key in Keys(vni, ip, ports) then None else Select(s, key, hash)
  {
    NoFreshSlots(s);
    hide Inv, Keys, SlotsOf;
    SlotsOfTable(s.nextTable);
  }

  // ---------------------------------------------------------------- the control object

  class Balancers {
    var lbs: map<Id, LbEntry>
    var services: map<LbKey, LbValue>
    var slots: map<SlotKey, Ip6>
    var nextTable: u32

    function St(): State
      reads this
    {
      State(lbs, services, slots, nextTable)
    }

    constructor ()
      ensures St() == INIT
    {
      lbs, services, slots, nextTable := map[], map[], map[], 1;
    }

    method CreateLoadBalancer(id: Id, vni: u32, ip: Ip4, ports: seq<(u16, u8)>) returns (r: Outcome)
      modifies this
      ensures (St(), r) == CreateLb(old(St()), id, vni, ip, ports)
    {
      if id in lbs { return Exists; }
      var tableId := nextTable;
      nextTable := (nextTable + 1) % 0x1_0000_0000;
      var j := 0;
      hide Keys, Bind;
      KeysNone(vni, ip, ports);
      BindNone(services, LbValue(tableId, TABLE_SIZE));
      while j < |ports|
        invariant j <= |ports| && lbs == old(lbs) && slots == old(slots)
        invariant nextTable == (tableId as int + 1) % 0x1_0000_0000
        invariant services == Bind(old(services), Keys(vni, ip, ports[..j]), LbValue(tableId, TABLE_SIZE))
      {
        var key, value := LbKey(vni, ip, ports[j].0, ports[j].1), LbValue(tableId, TABLE_SIZE);
        BindSnoc(old(services), Keys(vni, ip, ports[..j]), key, value);
        services := services[key := value];
        KeysSnoc(vni, ip, ports, j);
        j := j + 1;
      }
      assert ports[..j] == ports;
      lbs := lbs[id := LbEntry(vni, ip, ports, tableId, [])];
      r := Ok;
    }

    /** Rebuild the Maglev table of a nonempty list and write every slot. */
    method WriteTable(tableId: u32, backends: seq<Ip6>)
      requires backends != []
      modifies this`slots
      ensures slots == old(slots) + Programmed(tableId, backends)
    {
      hide Table, Written, Programmed;
      var table := Build(backends);
      TableComplete(backends);
      WrittenAll(tableId, backends, table);
      var slot := 0;
      while slot < |table|
        invariant slot <= TABLE_SIZE && slots == old(slots) + Written(tableId, backends, table, slot)
      {
        WrittenSnoc(old(slots), tableId, backends, table, slot);
        slots := slots[SlotKey(tableId, slot) := backends[table[slot]]];
        slot := slot + 1;
      }
    }

    /** Remove every slot of a table. */
    method ClearTable(tableId: u32)
      modifies this`slots
      ensures slots == old(slots) - SlotsOf(tableId)
    {
      var slot := 0;
      while slot < TABLE_SIZE
        invariant slot <= TABLE_SIZE
        invariant slots == old(slots) - (set k | k in SlotsOf(tableId) && k.slot < slot)
      {
        SlotsBelow(tableId, slot);
        slots := slots - {SlotKey(tableId, slot)};
        slot := slot + 1;
      }
      assert SlotsOf(tableId) == set k | k in SlotsOf(tableId) && k.slot < slot;
    }

    method AddLbTarget(id: Id, backend: Ip6) returns (r: Outcome)
      modifies this`lbs, this`slots
      ensures (St(), r) == AddTarget(old(St()), id, backend)
    {
      hide Programmed;
      if id !in lbs { return Unknown; }
      var e := lbs[id];
      if backend in e.backends { return Exists; }
      e := e.(backends := e.backends + [backend]);
      lbs := lbs[id := e];
      WriteTable(e.tableId, e.backends);
      r := Ok;
    }

    method DelLbTarget(id: Id, backend: Ip6) returns (r: Outcome)
      modifies this`lbs, this`slots
      ensures (St(), r) == DelTarget(old(St()), id, backend)
    {
      hide Programmed, SlotsOf;
      if id !in lbs { return Unknown; }
      var e := lbs[id];
      var left := Without(e.backends, backend);
      if |left| == |e.backends| { return Absent; }
      e := e.(backends := left);
      lbs := lbs[id := e];
      if left == [] {
        ClearTable(e.tableId);
      } else {
        WriteTable(e.tableId, left);
      }
      r := Ok;
    }

    method DeleteLoadBalancer(id: Id) returns (r: Outcome)
      modifies this`lbs, this`services, this`slots
      ensures (St(), r) == DeleteLb(old(St()), id)
    {
      hide SlotsOf;
      if id !in lbs { return Absent; }
      var e := lbs[id];
      lbs := lbs - {id};
      var j := 0;
      hide Keys;
      KeysNone(e.vni, e.ip, e.ports);
      while j < |e.ports|
        invariant j <= |e.ports| && services == old(services) - Keys(e.vni, e.ip, e.ports[..j])
        invariant lbs == old(lbs) - {id} && slots == old(slots)
      {
        services := services - {LbKey(e.vni, e.ip, e.ports[j].0, e.ports[j].1)};
        KeysSnoc(e.vni, e.ip, e.ports, j);
        j := j + 1;
      }
      assert e.ports[..j] == e.ports;
      ClearTable(e.tableId);
      r := Ok;
    }
  }

  lemma BindNone(m: map<LbKey, LbValue>, v: LbValue)
    ensures Bind(m, {}, v) == m
  {
  }

  lemma BindSnoc(m: map<LbKey, LbValue>, keys: set<LbKey>, k: LbKey, v: LbValue)
    ensures Bind(m, keys, v)[k := v] == Bind(m, keys + {k}, v)
  {
  }

  /** The slots of a table below `n`, as given by a table of backend indices. */
  function Written(tableId: u32, backends: seq<Ip6>, table: seq<u32>, n: nat): map<SlotKey, Ip6>
    requires n <= |table| == TABLE_SIZE && forall i | 0 <= i < TABLE_SIZE :: table[i] < |backends|
  {
    map k | k in SlotsOf(tableId) && k.slot < n :: backends[table[k.slot]]
  }

  lemma WrittenSnoc(m: map<SlotKey, Ip6>, tableId: u32, backends: seq<Ip6>, table: seq<u32>, n: nat)
    requires n < |table| == TABLE_SIZE && forall i | 0 <= i < TABLE_SIZE :: table[i] < |backends|
    ensures (m + Written(tableId, backends, table, n))[SlotKey(tableId, n) := backends[table[n]]]
         == m + Written(tableId, backends, table, n + 1)
  {
    SlotsBelow(tableId, n);
    assert SlotKey(tableId, n) in SlotsOf(tableId);
  }

  lemma WrittenAll(tableId: u32, backends: seq<Ip6>, table: seq<u32>)
    requires backends != [] && table == Table(backends)
    requires |table| == TABLE_SIZE && forall i | 0 <= i < TABLE_SIZE :: table[i] < |backends|
    ensures Written(tableId, backends, table, TABLE_SIZE) == Programmed(tableId, backends)
    ensures Written(tableId, backends, table, 0) == map[]
  {
    hide Table;
  }

  lemma KeysNone(vni: u32, ip: Ip4, ports: seq<(u16, u8)>)
    ensures Keys(vni, ip, ports[..0]) == {}
  {
  }

  lemma KeysSnoc(vni: u32, ip: Ip4, ports: seq<(u16, u8)>, j: nat)
    requires j < |ports|
    ensures Keys(vni, ip, ports[..j + 1]) == Keys(vni, ip, ports[..j]) + {LbKey(vni, ip, ports[j].0, ports[j].1)}
  {
    var a, b := ports[..j + 1], ports[..j];
    forall k | k in Keys(vni, ip, b)
      ensures k in Keys(vni, ip, a)
    {
      var i :| 0 <= i < j && k == LbKey(vni, ip, b[i].0, b[i].1);
      assert a[i] == b[i];
    }
    assert a[j] == ports[j];
    forall k | k in Keys(vni, ip, a)
      ensures k in Keys(vni, ip, b) || k == LbKey(vni, ip, ports[j].0, ports[j].1)
    {
      var i :| 0 <= i < j + 1 && k == LbKey(vni, ip, a[i].0, a[i].1);
      if i < j { assert a[i] == b[i]; }
    }
  }

  lemma SlotsBelow(t: u32, slot: nat)
    requires slot < TABLE_SIZE
    ensures (set k | k in SlotsOf(t) && k.slot < slot + 1)
         == (set k | k in SlotsOf(t) && k.slot < slot) + {SlotKey(t, slot)}
  {
  }
}
