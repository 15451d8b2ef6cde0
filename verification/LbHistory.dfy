/** Load-balancer records against the history of control calls: who is listed, in which order, and who is served. */
module LbHistory {
  import opened Types
  import opened Maglev
  import opened LoadBalancer

  // ---------------------------------------------------------------- one call

  /** All other balancers, all service keys and the id counter are as they were. */
  ghost predicate OnlyTargetsOf(s: State, s': State, id: Id) {
    && s'.services == s.services && s'.nextTable == s.nextTable && s'.lbs.Keys == s.lbs.Keys
    && (forall j | j in s.lbs && j != id :: s'.lbs[j] == s.lbs[j])
    && (id in s.lbs ==>
          s'.lbs[id] == LbEntry(s.lbs[id].vni, s.lbs[id].ip, s.lbs[id].ports, s.lbs[id].tableId, s'.lbs[id].backends))
  }

  /** An addition is granted exactly for a known balancer and a new backend; it goes behind all listed ones. */
  lemma AddAppends(s: State, id: Id, b: Ip6)
    ensures var (s', r) := AddTarget(s, id, b);
            && (r == Ok <==> id in s.lbs && b !in s.lbs[id].backends)
            && (r != Ok ==> s' == s)
            && (r == Ok ==>
                  var before, after := s.lbs[id].backends, s'.lbs[id].backends;
                  && OnlyTargetsOf(s, s', id)
                  && |after| == |before| + 1 && after[..|before|] == before && after[|before|] == b)
  {
    hide Programmed, SlotsOf;
  }

  lemma {:induction false} WithoutSplits(front: seq<Ip6>, rest: seq<Ip6>, b: Ip6)
    ensures Without(front + rest, b) == Without(front, b) + Without(rest, b)
  {
    if front == [] {
      assert front + rest == rest;
    } else {
      assert (front + rest)[1..] == front[1..] + rest;
      WithoutSplits(front[1..], rest, b);
    }
  }

  lemma {:induction false} WithoutAbsent(bs: seq<Ip6>, b: Ip6)
    requires b !in bs
    ensures Without(bs, b) == bs
  {
    if bs != [] { WithoutAbsent(bs[1..], b); }
  }

  /** A removal is granted exactly for a listed backend; all other backends stay, in their order. */
  lemma RemoveKeepsOthers(s: State, id: Id, front: seq<Ip6>, b: Ip6, rest: seq<Ip6>)
    requires id in s.lbs && s.lbs[id].backends == front + [b] + rest && NoDup(s.lbs[id].backends)
    ensures var (s', r) := DelTarget(s, id, b);
            r == Ok && OnlyTargetsOf(s, s', id) && s'.lbs[id].backends == front + rest
  {
    WithoutMiddle(front, b, rest);
    hide Programmed, SlotsOf, NoDup, Without;
  }

  lemma WithoutMiddle(front: seq<Ip6>, b: Ip6, rest: seq<Ip6>)
    requires NoDup(front + [b] + rest)
    ensures Without(front + [b] + rest, b) == front + rest
  {
    Apart(front, b, rest);
    WithoutSplits(front + [b], rest, b);
    WithoutSplits(front, [b], b);
    WithoutAbsent(front, b);
    WithoutAbsent(rest, b);
    assert [b][1..] == [] && Without([b], b) == [];
    hide NoDup, Without;
    assert front + [] == front;
  }

  lemma Apart(front: seq<Ip6>, b: Ip6, rest: seq<Ip6>)
    requires NoDup(front + [b] + rest)
    ensures b !in front && b !in rest
  {
    var all := front + [b] + rest;
    assert all[|front|] == b;
    assert forall i | 0 <= i < |front| :: all[i] == front[i];
    assert forall i | 0 <= i < |rest| :: all[|front| + 1 + i] == rest[i];
  }

  /** A removal that is refused changes nothing. */
  lemma RemoveRefusedIff(s: State, id: Id, b: Ip6)
    ensures var (s', r) := DelTarget(s, id, b);
            && (r == Ok <==> id in s.lbs && b in s.lbs[id].backends)
            && (r != Ok ==> s' == s)
  {
    hide Programmed, SlotsOf;
  }

  /** Adding a backend and removing it again restores the list. */
  lemma AddThenRemove(s: State, id: Id, b: Ip6)
    requires Inv(s) && AddTarget(s, id, b).1 == Ok
    ensures var (s', r) := DelTarget(AddTarget(s, id, b).0, id, b);
            r == Ok && s'.lbs == s.lbs && s'.services == s.services
  {
    hide Inv, Programmed, SlotsOf;
    AddAppends(s, id, b);
    var s1 := AddTarget(s, id, b).0;
    AddKeepsInv(s, id, b);
    NoDupOf(s1, id);
    var bs := s.lbs[id].backends;
    assert s1.lbs[id].backends == bs + [b] + [];
    hide AddTarget, DelTarget, NoDup;
    RemoveKeepsOthers(s1, id, bs, b, []);
    assert bs + [] == bs;
  }

  // ---------------------------------------------------------------- everybody is served

  /** While there are at most as many backends as slots, each listed backend has a slot of the table. */
  lemma ListedOwnsSlot(s: State, id: Id, i: nat) returns (slot: nat)
    requires Inv(s) && id in s.lbs && i < |s.lbs[id].backends| <= TABLE_SIZE
    ensures slot < TABLE_SIZE && SlotKey(s.lbs[id].tableId, slot) in s.slots
    ensures s.slots[SlotKey(s.lbs[id].tableId, slot)] == s.lbs[id].backends[i]
  {
    var e := s.lbs[id];
    assert SlotsMatch(s.slots, e);
    hide Inv, LbsOk, SlotsOk, ServicesOk, Table, Count;
    TableComplete(e.backends);
    TableBalanced(e.backends, i);
    SomeShare(TABLE_SIZE, |e.backends|);
    slot := CountedSlot(Table(e.backends), i);
    assert SlotKey(e.tableId, slot) in SlotsOf(e.tableId);
  }

  lemma SomeShare(m: nat, n: nat)
    requires 0 < n <= m
    ensures m / n >= 1
  {
  }

  lemma CountedSlot(t: seq<u32>, x: u32) returns (slot: nat)
    requires Count(t, x) > 0
    ensures slot < |t| && t[slot] == x
  {
    assert x in multiset(t);
    slot :| slot < |t| && t[slot] == x;
  }

  /** In every reachable state each listed backend is selected by some hash, for every key of its balancer. */
  lemma ListedIsSelected(steps: seq<Step>, id: Id, key: LbKey, i: nat) returns (hash: u32)
    requires AllowedRun(INIT, steps) && id in Run(INIT, steps).lbs && key in KeysOf(Run(INIT, steps).lbs[id])
    requires i < |Run(INIT, steps).lbs[id].backends| <= TABLE_SIZE
    ensures Select(Run(INIT, steps), key, hash) == Some(Run(INIT, steps).lbs[id].backends[i])
  {
    assert Inv(INIT);
    RunKeepsInv(INIT, steps);
    var s := Run(INIT, steps);
    hide Inv, Run, AllowedRun, KeysOf;
    var slot := ListedOwnsSlot(s, id, i);
    ServiceOf(s, id, key);
    SelectAtSlot(s, key, slot);
    hash := slot;
  }

  lemma ServiceOf(s: State, id: Id, key: LbKey)
    requires Inv(s) && id in s.lbs && key in KeysOf(s.lbs[id])
    ensures key in s.services && s.services[key] == LbValue(s.lbs[id].tableId, TABLE_SIZE)
  {
    hide KeysOf, LbsOk, SlotsOk;
  }

  lemma SelectAtSlot(s: State, key: LbKey, slot: nat)
    requires key in s.services && s.services[key].size == TABLE_SIZE && slot < TABLE_SIZE
    requires SlotKey(s.services[key].tableId, slot) in s.slots
    ensures Select(s, key, slot) == Some(s.slots[SlotKey(s.services[key].tableId, slot)])
  {
  }

  // ---------------------------------------------------------------- over runs

  /** The balancer was created by call `c` and not deleted since. */
  ghost predicate BornAt(steps: seq<Step>, id: Id, c: nat) {
    && c < |steps| && steps[c].Create? && steps[c].id == id
    && forall j | c < j < |steps| :: steps[j] != Delete(id)
  }

  /** A later call added the backend, and none since removed it. */
  ghost predicate AddedAt(steps: seq<Step>, id: Id, b: Ip6, i: nat) {
    i < |steps| && steps[i] == Add(id, b) && forall j | i < j < |steps| :: steps[j] != Remove(id, b)
  }

  ghost predicate Born(steps: seq<Step>, id: Id) { exists c :: BornAt(steps, id, c) }

  ghost predicate Kept(steps: seq<Step>, id: Id, b: Ip6) {
    exists c, i :: BornAt(steps, id, c) && c < i && AddedAt(steps, id, b, i)
  }

  lemma {:induction false} RunSnoc(s: State, steps: seq<Step>)
    requires steps != []
    ensures var n := |steps| - 1; Run(s, steps) == Apply(Run(s, steps[..n]), steps[n])
    decreases |steps|
  {
    hide Apply;
    var n := |steps| - 1;
    if n > 0 {
      assert steps[1..][..n - 1] == steps[..n][1..];
      RunSnoc(Apply(s, steps[0]), steps[1..]);
    }
  }

  lemma BornSnoc(steps: seq<Step>, id: Id)
    requires steps != []
    ensures var n := |steps| - 1;
            Born(steps, id) <==> (steps[n].Create? && steps[n].id == id)
                                 || (steps[n] != Delete(id) && Born(steps[..n], id))
  {
    var n := |steps| - 1;
    if c: nat :| BornAt(steps, id, c) {
      assert c < n ==> BornAt(steps[..n], id, c);
    }
    if steps[n].Create? && steps[n].id == id {
      assert BornAt(steps, id, n);
    } else if steps[n] != Delete(id) && Born(steps[..n], id) {
      var c :| BornAt(steps[..n], id, c);
      assert BornAt(steps, id, c);
    }
  }

  lemma KeptSnoc(steps: seq<Step>, id: Id, b: Ip6)
    requires steps != []
    ensures var n := |steps| - 1;
            Kept(steps, id, b)
            <==> if steps[n] == Add(id, b) then Born(steps[..n], id)
                 else steps[n] != Delete(id) && steps[n] != Remove(id, b) && Kept(steps[..n], id, b)
  {
    var n := |steps| - 1;
    if c: nat, i: nat :| BornAt(steps, id, c) && c < i && AddedAt(steps, id, b, i) {
      assert BornAt(steps[..n], id, c);
      assert i < n ==> AddedAt(steps[..n], id, b, i);
    }
    if steps[n] == Add(id, b) {
      if Born(steps[..n], id) {
        var c :| BornAt(steps[..n], id, c);
        assert BornAt(steps, id, c) && AddedAt(steps, id, b, n);
      }
    } else if steps[n] != Delete(id) && steps[n] != Remove(id, b) && Kept(steps[..n], id, b) {
      var c, i :| BornAt(steps[..n], id, c) && c < i && AddedAt(steps[..n], id, b, i);
      assert BornAt(steps, id, c) && AddedAt(steps, id, b, i);
    }
  }

  /** What one call does to a record. */
  lemma OneCall(s: State, t: Step, id: Id, b: Ip6)
    ensures var s' := Apply(s, t);
            && (id in s'.lbs <==> (t.Create? && t.id == id) || (id in s.lbs && t != Delete(id)))
            && (id in s'.lbs ==>
                  (b in s'.lbs[id].backends
                   <==> id in s.lbs && (t == Add(id, b) || (b in s.lbs[id].backends && t != Remove(id, b)))))
  {
    hide Programmed, SlotsOf, Keys, Bind;
  }

  /**
   * From power-up, over every run of control calls: a balancer exists exactly when it was created and not
   * deleted since; and a backend is listed exactly when, since that creation, it was added and not removed
   * after the latest time it was added.
   */
  lemma {:induction false} ListedIff(steps: seq<Step>, id: Id, b: Ip6)
    ensures var s := Run(INIT, steps);
            && (id in s.lbs <==> Born(steps, id))
            && (id in s.lbs ==> (b in s.lbs[id].backends <==> Kept(steps, id, b)))
    decreases |steps|
  {
    hide Apply, Born, Kept;
    if steps == [] {
      assert !Born(steps, id) by { NotBornYet(id); }
    } else {
      var n := |steps| - 1;
      ListedIff(steps[..n], id, b);
      RunSnoc(INIT, steps);
      BornSnoc(steps, id);
      KeptSnoc(steps, id, b);
      OneCall(Run(INIT, steps[..n]), steps[n], id, b);
      KeptIsBorn(steps[..n], id, b);
      hide Run;
    }
  }

  lemma NotBornYet(id: Id)
    ensures !Born([], id)
  {
  }

  lemma KeptIsBorn(steps: seq<Step>, id: Id, b: Ip6)
    ensures Kept(steps, id, b) ==> Born(steps, id)
  {
  }

  /** The creation that a live record stems from: granted, and not undone since. */
  ghost predicate MadeBy(steps: seq<Step>, id: Id, c: nat, e: LbEntry) {
    && BornAt(steps, id, c) && !Born(steps[..c], id)
    && e.vni == steps[c].vni && e.ip == steps[c].ip && e.ports == steps[c].ports
  }

  lemma CallKeepsRecord(s: State, t: Step, id: Id)
    requires id in Apply(s, t).lbs
    ensures id !in s.lbs ==>
              t.Create? && t.id == id
              && var e := Apply(s, t).lbs[id]; e.vni == t.vni && e.ip == t.ip && e.ports == t.ports
    ensures id in s.lbs ==>
              && t != Delete(id)
              && var e, e' := s.lbs[id], Apply(s, t).lbs[id]; e'.vni == e.vni && e'.ip == e.ip && e'.ports == e.ports
  {
    hide Programmed, SlotsOf, Keys, Bind;
  }

  /** A live balancer has the address and ports of the first creation since its latest deletion. */
  lemma {:induction false} RecordStems(steps: seq<Step>, id: Id) returns (c: nat)
    requires id in Run(INIT, steps).lbs
    ensures MadeBy(steps, id, c, Run(INIT, steps).lbs[id])
    decreases |steps|
  {
    hide Apply, Born;
    var n := |steps| - 1;
    RunSnoc(INIT, steps);
    ListedIff(steps[..n], id, seq(16, _ => 0));
    CallKeepsRecord(Run(INIT, steps[..n]), steps[n], id);
    if id in Run(INIT, steps[..n]).lbs {
      c := RecordStems(steps[..n], id);
      assert steps[..n][..c] == steps[..c];
    } else {
      c := n;
    }
  }

  /** No call changes the order of two backends that stay listed. */
  lemma CallKeepsOrder(s: State, t: Step, id: Id, a: Ip6, b: Ip6)
    requires Inv(s) && id in s.lbs && id in Apply(s, t).lbs
    requires a in s.lbs[id].backends && b in s.lbs[id].backends
    requires a in Apply(s, t).lbs[id].backends && b in Apply(s, t).lbs[id].backends
    ensures Precedes(s.lbs[id].backends, a, b) ==> Precedes(Apply(s, t).lbs[id].backends, a, b)
  {
    NoDupOf(s, id);
    hide Inv, Programmed, SlotsOf, Keys, Bind;
    if Precedes(s.lbs[id].backends, a, b) {
      match t
      case Remove(i, x) => if i == id { WithoutKeepsOrder(s.lbs[id].backends, x, a, b); }
      case Add(i, x) =>
        if i == id && x !in s.lbs[id].backends { PrecedesSnoc(s.lbs[id].backends, a, b, x); }
      case _ =>
    }
  }

  ghost predicate Precedes(bs: seq<Ip6>, a: Ip6, b: Ip6) {
    exists i, j :: 0 <= i < j < |bs| && bs[i] == a && bs[j] == b
  }

  lemma PrecedesSnoc(bs: seq<Ip6>, a: Ip6, b: Ip6, x: Ip6)
    requires Precedes(bs, a, b)
    ensures Precedes(bs + [x], a, b)
  {
    var i, j :| 0 <= i < j < |bs| && bs[i] == a && bs[j] == b;
    assert (bs + [x])[i] == a && (bs + [x])[j] == b;
  }

  lemma {:induction false} WithoutKeepsOrder(bs: seq<Ip6>, x: Ip6, a: Ip6, b: Ip6)
    requires Precedes(bs, a, b) && a != x && b != x
    ensures Precedes(Without(bs, x), a, b)
  {
    var i, j :| 0 <= i < j < |bs| && bs[i] == a && bs[j] == b;
    var front, rest := bs[..j], bs[j..];
    assert bs == front + rest;
    WithoutSplits(front, rest, x);
    assert front[i] == a && rest[0] == b;
    assert a in front && b in rest;
    var f, r := Without(front, x), Without(rest, x);
    var k :| 0 <= k < |f| && f[k] == a;
    var l :| 0 <= l < |r| && r[l] == b;
    assert (f + r)[k] == a && (f + r)[|f| + l] == b;
  }
}
