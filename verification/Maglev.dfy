/** The Maglev lookup-table builder: a cursor per backend refines "each turn takes its first free choice". */
module Maglev {
  import opened Types
  import opened Packet

  const TABLE_SIZE: nat := 1021
  const EMPTY: u32 := 0xffff_ffff

  // ---------------------------------------------------------------- hashing

  function Fnv64(bytes: seq<u8>, h: u64): u64 {
    if bytes == [] then h
    else (XorByte(Fnv64(bytes[..|bytes| - 1], h), bytes[|bytes| - 1]) * 0x100000001b3) % 0x1_0000_0000_0000_0000
  }

  const FNV_BASIS: u64 := 0xcbf29ce484222325

  /** FNV-1a over bytes; the seed is mixed into the offset basis. */
  method Fnv1a(bytes: seq<u8>, seed: u8) returns (h: u64)
    ensures h == Fnv64(bytes, XorByte(FNV_BASIS, seed) % 0x1_0000_0000_0000_0000)
  {
    hide XorByte;
    h := XorByte(FNV_BASIS, seed) % 0x1_0000_0000_0000_0000;
    var i := 0;
    while i < |bytes|
      invariant i <= |bytes| && h == Fnv64(bytes[..i], XorByte(FNV_BASIS, seed) % 0x1_0000_0000_0000_0000)
    {
      assert bytes[..i + 1][..i] == bytes[..i];
      h := (XorByte(h, bytes[i]) * 0x100000001b3) % 0x1_0000_0000_0000_0000;
      i := i + 1;
    }
    assert bytes[..i] == bytes;
  }

  /** A backend's permutation parameters. */
  datatype Params = Params(offset: nat, skip: nat) {
    predicate Good() { offset < TABLE_SIZE && 1 <= skip < TABLE_SIZE }
  }

  function ParamsOf(b: Ip6): (p: Params)
    ensures p.Good()
  {
    Params(Fnv64(b, XorByte(FNV_BASIS, 1) % 0x1_0000_0000_0000_0000) % TABLE_SIZE,
           Fnv64(b, XorByte(FNV_BASIS, 2) % 0x1_0000_0000_0000_0000) % (TABLE_SIZE - 1) + 1)
  }

  // ---------------------------------------------------------------- the reference construction

  function Probe(p: Params, k: nat): (slot: nat)
    ensures slot < TABLE_SIZE
  {
    (p.offset + k * p.skip) % TABLE_SIZE
  }

  /** The first slot from choice `k` on that is still empty. */
  function Pick(p: Params, t: seq<u32>, k: nat): (slot: nat)
    requires |t| == TABLE_SIZE
    ensures slot < TABLE_SIZE
    decreases TABLE_SIZE - k
  {
    if k >= TABLE_SIZE || t[Probe(p, k)] == EMPTY then Probe(p, k) else Pick(p, t, k + 1)
  }

  /** The table after `turns` turns: turn `j` gives backend `j mod n` its most preferred empty slot. */
  function Filled(ps: seq<Params>, turns: nat): (t: seq<u32>)
    requires ps != [] && turns <= TABLE_SIZE
    ensures |t| == TABLE_SIZE
  {
    if turns == 0 then seq(TABLE_SIZE, _ => EMPTY)
    else
      var t := Filled(ps, turns - 1);
      var i := (turns - 1) % |ps|;
      ModBelow(turns - 1, |ps|);
      t[Pick(ps[i], t, 0) := i]
  }

  lemma ModBelow(x: nat, n: nat)
    requires n > 0
    ensures x % n <= x && x % n < n
  {
    if x < n { assert x % n == x; }
  }

  function ParamsSeq(backends: seq<Ip6>): (ps: seq<Params>)
    ensures |ps| == |backends| && forall i | 0 <= i < |ps| :: ps[i].Good()
  {
    seq(|backends|, i requires 0 <= i < |backends| => ParamsOf(backends[i]))
  }

  /** The lookup table of a backend list. */
  function Table(backends: seq<Ip6>): seq<u32> {
    if backends == [] then [] else Filled(ParamsSeq(backends), TABLE_SIZE)
  }

  // ---------------------------------------------------------------- 1021 is prime

  lemma NoSmallDivisor(d: nat)
    requires 2 <= d <= 32
    ensures TABLE_SIZE % d != 0
  {
  }

  lemma Prime(d: nat)
    requires 2 <= d < TABLE_SIZE
    ensures TABLE_SIZE % d != 0
  {
    if d <= 32 {
      NoSmallDivisor(d);
    } else if TABLE_SIZE % d == 0 {
      var q := TABLE_SIZE / d;
      assert TABLE_SIZE == d * q;
      LargeFactors(d, q);
      MulMod(d, q);
      NoSmallDivisor(q);
    }
  }

  lemma LargeFactors(d: nat, q: nat)
    ensures d >= 33 && q >= 31 ==> d * q >= 1023
    ensures q == 0 ==> d * q == 0
  {
    if d >= 33 && q >= 31 {
      assert d * q >= 33 * q;
    }
  }

  lemma MulMod(d: nat, q: nat)
    requires q > 0
    ensures (d * q) % q == 0
  {
    var x := d * q;
    var z := d - x / q;
    assert z * q == x % q by { assert x == (x / q) * q + x % q; }
    SmallMultiple(z, q);
  }

  lemma SmallMultiple(z: int, q: nat)
    ensures 0 <= z * q < q ==> z == 0
  {
    if z >= 1 { assert z * q >= q; }
    if z <= -1 { assert z * q <= 0 - q; }
  }

  /** Multiplicative inverses modulo the table size, by descent along Euclid's remainders. */
  lemma {:induction false} Inverse(a: nat) returns (inv: int, c: int)
    requires 1 <= a < TABLE_SIZE
    ensures a * inv == 1 + TABLE_SIZE * c
    decreases a
  {
    if a == 1 {
      inv, c := 1, 0;
    } else {
      Prime(a);
      var q, r := TABLE_SIZE / a, TABLE_SIZE % a;
      var i, d := Inverse(r);
      inv, c := -q * i, d - i;
      assert TABLE_SIZE == q * a + r;
      assert a * (-q * i) == (r - TABLE_SIZE) * i by {
        assert a * (-q * i) == -(q * a) * i;
      }
      assert (r - TABLE_SIZE) * i == r * i - TABLE_SIZE * i;
    }
  }

  lemma Distribute(a: int, b: int, c: int)
    ensures (a - b) * c == a * c - b * c
  {
  }

  lemma Reassociate(a: int, b: int, c: int)
    ensures (a * b) * c == a * (c * b) == (a * c) * b
  {
  }

  /** The choice number that lands on a wanted distance. */
  lemma Solved(x: int, inv: int, skip: int, c: int, m: int, k: int)
    requires x * inv == TABLE_SIZE * m + k && skip * inv == 1 + TABLE_SIZE * c
    ensures k * skip == x + TABLE_SIZE * (c * x - m * skip)
  {
    Distribute(x * inv, TABLE_SIZE * m, skip);
    Reassociate(x, inv, skip);
    Reassociate(TABLE_SIZE, m, skip);
    assert x * (1 + TABLE_SIZE * c) == x + TABLE_SIZE * (c * x);
  }

  /** A skip that is invertible can be cancelled. */
  lemma Cancelled(d: int, inv: int, skip: int, c: int, m: int)
    requires d * skip == TABLE_SIZE * m && skip * inv == 1 + TABLE_SIZE * c
    ensures d == TABLE_SIZE * (m * inv - d * c)
  {
    Reassociate(d, skip, inv);
    Reassociate(TABLE_SIZE, m, inv);
    assert d * (1 + TABLE_SIZE * c) == d + TABLE_SIZE * (d * c);
  }

  /** Every slot is among the first 1021 choices of every backend. */
  lemma ProbeReaches(p: Params, slot: nat) returns (k: nat)
    requires p.Good() && slot < TABLE_SIZE
    ensures k < TABLE_SIZE && Probe(p, k) == slot
  {
    var inv, c := Inverse(p.skip);
    var x := slot - p.offset;
    k := (x * inv) % TABLE_SIZE;
    var m := (x * inv) / TABLE_SIZE;
    assert x * inv == TABLE_SIZE * m + k;
    Solved(x, inv, p.skip, c, m, k);
    ModOfMultiple(slot, c * x - m * p.skip);
  }

  /** No slot comes up twice among the first 1021 choices: each backend's choices permute the slots. */
  lemma ProbeInjective(p: Params, j: nat, k: nat)
    requires p.Good() && j < TABLE_SIZE && k < TABLE_SIZE && Probe(p, j) == Probe(p, k)
    ensures j == k
  {
    var inv, c := Inverse(p.skip);
    var a, b, d := p.offset + j * p.skip, p.offset + k * p.skip, j - k;
    var m := a / TABLE_SIZE - b / TABLE_SIZE;
    Distribute(j, k, p.skip);
    assert d * p.skip == TABLE_SIZE * m;
    Cancelled(d, inv, p.skip, c, m);
    var z := m * inv - d * c;
    assert d == TABLE_SIZE * z;
  }

  lemma ModOfMultiple(s: nat, z: int)
    requires s < TABLE_SIZE
    ensures (s + TABLE_SIZE * z) % TABLE_SIZE == s
  {
  }

  // ---------------------------------------------------------------- completeness and balance

  /** While an empty slot is left, a turn takes an empty slot. */
  lemma PickFindsEmpty(p: Params, t: seq<u32>)
    requires p.Good() && |t| == TABLE_SIZE && EMPTY in t
    ensures t[Pick(p, t, 0)] == EMPTY
  {
    var slot :| 0 <= slot < TABLE_SIZE && t[slot] == EMPTY;
    var k := ProbeReaches(p, slot);
    PickBefore(p, t, 0, k);
  }

  lemma {:induction false} PickBefore(p: Params, t: seq<u32>, i: nat, k: nat)
    requires |t| == TABLE_SIZE && i <= k < TABLE_SIZE && t[Probe(p, k)] == EMPTY
    ensures t[Pick(p, t, i)] == EMPTY
    decreases k - i
  {
    if t[Probe(p, i)] != EMPTY {
      PickBefore(p, t, i + 1, k);
    }
  }

  /** Choices already passed over need not be looked at again. */
  lemma {:induction false} PickSkips(p: Params, t: seq<u32>, k: nat)
    requires |t| == TABLE_SIZE && k <= TABLE_SIZE
    requires forall j | 0 <= j < k :: t[Probe(p, j)] != EMPTY
    ensures Pick(p, t, 0) == Pick(p, t, k)
    decreases k
  {
    if k > 0 {
      PickSkips(p, t, k - 1);
      assert t[Probe(p, k - 1)] != EMPTY;
    }
  }

  function Count(t: seq<u32>, x: u32): nat { multiset(t)[x] }

  lemma CountUpdate(t: seq<u32>, i: nat, v: u32, x: u32)
    requires i < |t| && t[i] != v
    ensures Count(t[i := v], x)
         == if x == v then Count(t, x) + 1 else if x == t[i] then Count(t, x) - 1 else Count(t, x)
  {
    assert multiset(t[i := v]) == multiset(t) - multiset{t[i]} + multiset{v};
  }

  lemma {:induction false} CountOfEmpty(n: nat, x: u32)
    ensures Count(seq(n, _ => EMPTY), x) == if x == EMPTY then n else 0
  {
    if n > 0 {
      CountOfEmpty(n - 1, x);
      var s: seq<u32>, r: seq<u32> := seq(n, _ => EMPTY), seq(n - 1, _ => EMPTY);
      assert s == r + [EMPTY];
      assert multiset(s) == multiset(r) + multiset{EMPTY};
    }
  }

  /** Number of turns before turn `turns` that belong to backend `i`. */
  function TurnsOf(i: nat, n: nat, turns: nat): nat
    requires n > 0
  {
    turns / n + if i < turns % n then 1 else 0
  }

  lemma NextTurn(i: nat, n: nat, turns: nat)
    requires i < n
    ensures TurnsOf(i, n, turns + 1) == TurnsOf(i, n, turns) + if turns % n == i then 1 else 0
  {
    var q, r := turns / n, turns % n;
    assert turns == q * n + r;
    if r + 1 < n {
      DivModOf(q, n, r + 1);
    } else {
      assert turns + 1 == (q + 1) * n + 0;
      DivModOf(q + 1, n, 0);
    }
  }

  lemma DivModOf(q: nat, n: nat, r: nat)
    requires r < n
    ensures (q * n + r) / n == q && (q * n + r) % n == r
  {
    var x := q * n + r;
    var z := q - x / n;
    assert z * n == x % n - r by { assert x == (x / n) * n + x % n; }
    SmallMultiple(z, n);
    SmallMultiple(-z, n);
  }

  lemma FilledZero(ps: seq<Params>)
    requires ps != []
    ensures Filled(ps, 0) == seq(TABLE_SIZE, _ => EMPTY)
  {
  }

  lemma FilledNext(ps: seq<Params>, turns: nat)
    requires ps != [] && turns < TABLE_SIZE
    ensures var i := turns % |ps|;
            i <= turns && Filled(ps, turns + 1) == Filled(ps, turns)[Pick(ps[i], Filled(ps, turns), 0) := i]
  {
    ModBelow(turns, |ps|);
  }

  predicate GoodAll(ps: seq<Params>) { ps != [] && forall i | 0 <= i < |ps| :: ps[i].Good() }

  lemma GoodNonEmpty(ps: seq<Params>)
    requires GoodAll(ps)
    ensures ps != []
  {
  }

  /** One turn replaces one empty slot by its backend. */
  lemma TurnStep(ps: seq<Params>, turns: nat, x: u32)
    requires GoodAll(ps) && 0 < turns <= TABLE_SIZE && EMPTY in Filled(ps, turns - 1)
    ensures var t, t', v := Filled(ps, turns - 1), Filled(ps, turns), (turns - 1) % |ps|;
            && v < turns && v < |ps|
            && (exists c | 0 <= c < TABLE_SIZE :: t[c] == EMPTY && t' == t[c := v])
            && Count(t', x) == if x == v then Count(t, x) + 1 else if x == EMPTY then Count(t, x) - 1 else Count(t, x)
  {
    hide Filled, Pick;
    var t, v := Filled(ps, turns - 1), (turns - 1) % |ps|;
    FilledNext(ps, turns - 1);
    PickFindsEmpty(ps[v], t);
    var c := Pick(ps[v], t, 0);
    CountUpdate(t, c, v, x);
  }

  /** After any number of turns exactly that many slots are taken, by backends that had their turn. */
  lemma {:induction false} FilledEmpties(ps: seq<Params>, turns: nat)
    requires GoodAll(ps) && turns <= TABLE_SIZE
    ensures var t := Filled(ps, turns);
            && Count(t, EMPTY) == TABLE_SIZE - turns && (turns < TABLE_SIZE ==> EMPTY in t)
            && (forall x | x in t :: x == EMPTY || (x < |ps| && x < turns))
    decreases turns
  {
    hide Filled, GoodAll;
    GoodNonEmpty(ps);
    var t' := Filled(ps, turns);
    if turns == 0 {
      FilledZero(ps);
      CountOfEmpty(TABLE_SIZE, EMPTY);
    } else {
      FilledEmpties(ps, turns - 1);
      TurnStep(ps, turns, EMPTY);
      var t := Filled(ps, turns - 1);
      var c :| 0 <= c < TABLE_SIZE && t[c] == EMPTY && t' == t[c := (turns - 1) % |ps|];
      forall x | x in t'
        ensures x == EMPTY || (x < |ps| && x < turns)
      {
        var j :| 0 <= j < TABLE_SIZE && t'[j] == x;
        assert j != c ==> t[j] in t;
      }
    }
    assert turns < TABLE_SIZE ==> EMPTY in multiset(t');
  }

  /** Round robin: every backend holds exactly one slot per turn it had. */
  lemma {:induction false} FilledShare(ps: seq<Params>, turns: nat, i: nat)
    requires GoodAll(ps) && turns <= TABLE_SIZE && i < |ps| && i < EMPTY
    ensures Count(Filled(ps, turns), i) == TurnsOf(i, |ps|, turns)
    decreases turns
  {
    hide Filled, GoodAll;
    if turns == 0 {
      assert ps != [] by { GoodNonEmpty(ps); }
      FilledZero(ps);
      CountOfEmpty(TABLE_SIZE, i);
      DivModOf(0, |ps|, 0);
    } else {
      FilledShare(ps, turns - 1, i);
      FilledEmpties(ps, turns - 1);
      TurnStep(ps, turns, i);
      NextTurn(i, |ps|, turns - 1);
    }
  }

  lemma ParamsGood(backends: seq<Ip6>)
    requires backends != []
    ensures GoodAll(ParamsSeq(backends))
  {
  }

  /** Every slot of a nonempty list's table holds a valid backend index. */
  lemma TableComplete(backends: seq<Ip6>)
    requires backends != []
    ensures |Table(backends)| == TABLE_SIZE
    ensures forall slot | 0 <= slot < TABLE_SIZE :: Table(backends)[slot] < |backends|
  {
    hide ParamsSeq, Filled;
    ParamsGood(backends);
    FilledEmpties(ParamsSeq(backends), TABLE_SIZE);
    var t := Table(backends);
    assert EMPTY !in multiset(t);
    forall slot | 0 <= slot < TABLE_SIZE
      ensures t[slot] < |backends|
    {
      assert t[slot] in t && t[slot] in multiset(t);
    }
  }

  /** Exact balance: floor(1021/n) slots each, one more for the first 1021 mod n backends, for every n. */
  lemma TableBalanced(backends: seq<Ip6>, i: nat)
    requires i < |backends| && i < EMPTY
    ensures Count(Table(backends), i) == TABLE_SIZE / |backends| + if i < TABLE_SIZE % |backends| then 1 else 0
  {
    hide ParamsSeq, Filled;
    ParamsGood(backends);
    FilledShare(ParamsSeq(backends), TABLE_SIZE, i);
  }

  // ---------------------------------------------------------------- preferences

  /** What a turn picks is the first empty slot of the backend's order. */
  lemma PickIsFirst(p: Params, t: seq<u32>) returns (k: nat)
    requires p.Good() && |t| == TABLE_SIZE && EMPTY in t
    ensures k < TABLE_SIZE && Pick(p, t, 0) == Probe(p, k) && t[Probe(p, k)] == EMPTY
    ensures forall j | 0 <= j < k :: t[Probe(p, j)] != EMPTY
  {
    hide Probe;
    var slot :| 0 <= slot < TABLE_SIZE && t[slot] == EMPTY;
    var last := ProbeReaches(p, slot);
    k := 0;
    while t[Probe(p, k)] != EMPTY
      invariant k <= last && forall j | 0 <= j < k :: t[Probe(p, j)] != EMPTY
      decreases last - k
    {
      k := k + 1;
    }
    PickSkips(p, t, k);
  }

  /** A slot that is taken stays taken by the same backend. */
  lemma {:induction false} FilledKeeps(ps: seq<Params>, turns: nat, later: nat, slot: nat)
    requires GoodAll(ps) && turns <= later <= TABLE_SIZE && slot < TABLE_SIZE && Filled(ps, turns)[slot] != EMPTY
    ensures Filled(ps, later)[slot] == Filled(ps, turns)[slot]
    decreases later
  {
    hide Filled, Pick;
    if turns < later {
      FilledKeeps(ps, turns, later - 1, slot);
      FilledEmpties(ps, later - 1);
      TurnStep(ps, later, EMPTY);
    }
  }

  /**
   * Every slot by its turn: turn `j` belongs to backend `j mod n` and takes the first slot of that backend's own
   * order that no earlier turn took. The order starts at the FNV-1a hash of the address with seed 1 modulo 1021
   * and goes on in steps of its hash with seed 2 modulo 1020, plus 1.
   */
  lemma TurnOwns(backends: seq<Ip6>, j: nat) returns (k: nat)
    requires backends != [] && j < TABLE_SIZE
    ensures k < TABLE_SIZE
    ensures var i, before := j % |backends|, Filled(ParamsSeq(backends), j);
            var offset := Fnv64(backends[i], 0xcbf29ce484222324) % 1021;
            var skip := Fnv64(backends[i], 0xcbf29ce484222327) % 1020 + 1;
            && (forall l | 0 <= l < k :: before[(offset + l * skip) % 1021] != EMPTY)
            && before[(offset + k * skip) % 1021] == EMPTY
            && |Table(backends)| == TABLE_SIZE && Table(backends)[(offset + k * skip) % 1021] == i
  {
    hide *;
    var i := ParamsAre(backends, j);
    var ps := ParamsSeq(backends);
    ParamsGood(backends);
    GoodAt(ps, i);
    FilledEmpties(ps, j);
    FilledNext(ps, j);
    var before := Filled(ps, j);
    k := PickIsFirst(ps[i], before);
    FilledKeeps(ps, j + 1, TABLE_SIZE, Probe(ps[i], k));
    ProbeMeans(ps[i], k);
    forall l | 0 <= l < k
      ensures before[(ps[i].offset + l * ps[i].skip) % 1021] != EMPTY
    {
      ProbeMeans(ps[i], l);
    }
  }

  lemma ProbeMeans(p: Params, l: nat)
    ensures Probe(p, l) == (p.offset + l * p.skip) % 1021
  {
  }

  lemma GoodAt(ps: seq<Params>, i: nat)
    requires GoodAll(ps) && i < |ps|
    ensures ps != [] && ps[i].Good()
  {
  }

  /** Whose turn it is, and that backend's order. */
  lemma ParamsAre(backends: seq<Ip6>, j: nat) returns (i: nat)
    requires backends != [] && j < TABLE_SIZE
    ensures i == j % |backends| && i < |backends| == |ParamsSeq(backends)| && i < EMPTY && TABLE_SIZE == 1021
    ensures ParamsSeq(backends)[i] == Params(Fnv64(backends[i], 0xcbf29ce484222324) % 1021,
                                             Fnv64(backends[i], 0xcbf29ce484222327) % 1020 + 1)
    ensures Table(backends) == Filled(ParamsSeq(backends), TABLE_SIZE)
  {
    i := j % |backends|;
    ModBelow(j, |backends|);
    OrderOf(backends[i]);
    hide ParamsOf, Filled;
  }

  lemma OrderOf(b: Ip6)
    ensures ParamsOf(b) == Params(Fnv64(b, 0xcbf29ce484222324) % 1021, Fnv64(b, 0xcbf29ce484222327) % 1020 + 1)
  {
    SeededBases();
    hide XorByte, Fnv64;
  }

  /** The offset basis with the two seeds mixed in. */
  lemma SeededBases()
    ensures XorByte(FNV_BASIS, 1) == 0xcbf29ce484222324 && XorByte(FNV_BASIS, 2) == 0xcbf29ce484222327
  {
    hide XorBits;
    LowBits(FNV_BASIS, 1);
    LowBits(FNV_BASIS, 2);
    SmallXor();
  }

  lemma SmallXor()
    ensures XorBits(1, 1) == 0 && XorBits(1, 2) == 3
  {
  }

  /** Mixing in a number below 4 changes the lowest two bits only. */
  lemma LowBits(h: nat, b: nat)
    requires b < 4
    ensures XorBits(h, b) == h - h % 4 + XorBits(h % 4, b)
  {
    hide XorBits;
    XorStep(h, b);
    XorStep(h / 2, b / 2);
    XorStep(h % 4, b);
    XorStep(h % 4 / 2, b / 2);
    XorNothing(h / 4);
    XorNothing(0);
    LowDigits(h);
  }

  /** One binary digit. */
  lemma XorStep(a: nat, b: nat)
    ensures XorBits(a, b) == (a % 2 + b % 2) % 2 + 2 * XorBits(a / 2, b / 2)
  {
  }

  lemma LowDigits(h: nat)
    ensures h / 2 / 2 == h / 4 && h % 4 / 2 / 2 == 0 && h % 4 % 2 == h % 2 && h % 4 / 2 % 2 == h / 2 % 2
    ensures h - h % 4 == 4 * (h / 4)
  {
  }

  lemma {:induction false} XorNothing(h: nat)
    ensures XorBits(h, 0) == h
  {
    if h > 0 { XorNothing(h / 2); }
  }

  /** The first backend holds the slot at its own offset. */
  lemma FirstHoldsItsOffset(backends: seq<Ip6>)
    requires backends != []
    ensures |Table(backends)| == TABLE_SIZE && Table(backends)[Fnv64(backends[0], 0xcbf29ce484222324) % 1021] == 0
  {
    hide *;
    ModBelow(0, |backends|);
    SameCount(backends);
    NothingTaken(ParamsSeq(backends));
    var k := TurnOwns(backends, 0);
    var offset, skip := Fnv64(backends[0], 0xcbf29ce484222324), Fnv64(backends[0], 0xcbf29ce484222327) % 1020 + 1;
    NoSteps(offset, skip);
    assert k == 0;
  }

  lemma SameCount(backends: seq<Ip6>)
    ensures |ParamsSeq(backends)| == |backends|
  {
  }

  lemma NothingTaken(ps: seq<Params>)
    requires ps != []
    ensures TABLE_SIZE == 1021 && |Filled(ps, 0)| == 1021
    ensures forall slot | 0 <= slot < 1021 :: Filled(ps, 0)[slot] == EMPTY
  {
  }

  lemma NoSteps(x: nat, skip: nat)
    ensures (x % 1021 + 0 * skip) % 1021 == x % 1021 < 1021
  {
  }

  // ---------------------------------------------------------------- the builder

  /** Every choice of backend `i` before its cursor is taken. */
  ghost predicate CursorsOk(ps: seq<Params>, next: seq<nat>, t: seq<u32>)
    requires |next| == |ps| && |t| == TABLE_SIZE
  {
    forall i, j: nat | 0 <= i < |ps| && j < next[i] :: t[Probe(ps[i], j)] != EMPTY
  }

  /** The inner search: advance the cursor to the first empty choice. It stays below 1021. */
  method Advance(p: Params, t: seq<u32>, from: nat) returns (cursor: nat)
    requires p.Good() && |t| == TABLE_SIZE && EMPTY in t
    requires forall j | 0 <= j < from :: t[Probe(p, j)] != EMPTY
    ensures from <= cursor < TABLE_SIZE
    ensures Probe(p, cursor) == Pick(p, t, 0) && t[Probe(p, cursor)] == EMPTY
    ensures forall j | 0 <= j < cursor :: t[Probe(p, j)] != EMPTY
  {
    hide Probe;
    ghost var slot :| 0 <= slot < TABLE_SIZE && t[slot] == EMPTY;
    ghost var k := ProbeReaches(p, slot);
    cursor := from;
    var c := Probe(p, cursor);
    while t[c] != EMPTY
      invariant from <= cursor <= k && c == Probe(p, cursor)
      invariant forall j | 0 <= j < cursor :: t[Probe(p, j)] != EMPTY
      decreases k - cursor
    {
      cursor := cursor + 1;
      c := Probe(p, cursor);
    }
    PickSkips(p, t, cursor);
  }

  lemma CursorsAdvance(ps: seq<Params>, next: seq<nat>, t: seq<u32>, i: nat, cursor: nat, v: u32)
    requires |next| == |ps| && |t| == TABLE_SIZE && CursorsOk(ps, next, t) && i < |ps| && v != EMPTY
    requires forall j: nat | j < cursor :: t[Probe(ps[i], j)] != EMPTY
    ensures CursorsOk(ps, next[i := cursor + 1], t[Probe(ps[i], cursor) := v])
  {
    hide Probe;
    var t', next' := t[Probe(ps[i], cursor) := v], next[i := cursor + 1];
    forall l, j: nat | 0 <= l < |ps| && j < next'[l]
      ensures t'[Probe(ps[l], j)] != EMPTY
    {
      if l == i && j < cursor {
        assert t[Probe(ps[i], j)] != EMPTY;
      }
    }
  }

  /** One turn of the round: place backend `i` and move its cursor. */
  method TakeTurn(ps: seq<Params>, next: seq<nat>, table: seq<u32>, i: nat, ghost filled: nat)
      returns (next': seq<nat>, table': seq<u32>)
    requires GoodAll(ps) && |next| == |ps| && i < |ps| && filled < TABLE_SIZE && filled % |ps| == i
    requires table == Filled(ps, filled) && CursorsOk(ps, next, table)
    ensures |next'| == |ps| && table' == Filled(ps, filled + 1) && CursorsOk(ps, next', table')
  {
    hide Filled, Probe, Pick;
    FilledEmpties(ps, filled);
    var cursor := Advance(ps[i], table, next[i]);
    FilledNext(ps, filled);
    CursorsAdvance(ps, next, table, i, cursor, i);
    table' := table[Probe(ps[i], cursor) := i];
    next' := next[i := cursor + 1];
  }

  /** One round of turns, cut short when the table is full. */
  method PlayRound(ps: seq<Params>, next0: seq<nat>, table0: seq<u32>, filled0: nat)
      returns (next: seq<nat>, table: seq<u32>, filled: nat)
    requires GoodAll(ps) && |next0| == |ps| && filled0 < TABLE_SIZE && filled0 % |ps| == 0
    requires table0 == Filled(ps, filled0) && CursorsOk(ps, next0, table0)
    ensures filled0 < filled <= TABLE_SIZE && (filled < TABLE_SIZE ==> filled % |ps| == 0)
    ensures |next| == |ps| && table == Filled(ps, filled) && CursorsOk(ps, next, table)
  {
    hide Filled, CursorsOk, GoodAll;
    GoodNonEmpty(ps);
    next, table, filled := next0, table0, filled0;
    var i := 0;
    while i < |ps|
      invariant 0 <= i <= |ps| && filled == filled0 + i && filled < TABLE_SIZE
      invariant |next| == |ps| && table == Filled(ps, filled) && CursorsOk(ps, next, table)
      decreases |ps| - i
    {
      InRound(filled0, i, |ps|);
      next, table := TakeTurn(ps, next, table, i, filled);
      filled := filled + 1;
      if filled == TABLE_SIZE { return; }
      i := i + 1;
    }
    NextRound(filled0, |ps|);
  }

  /** Hash every backend twice for its offset and skip. */
  method Parameters(backends: seq<Ip6>) returns (ps: seq<Params>)
    ensures ps == ParamsSeq(backends)
  {
    hide Fnv64, XorByte;
    ps := [];
    var i := 0;
    while i < |backends|
      invariant i <= |backends| && ps == ParamsSeq(backends)[..i]
    {
      var h1 := Fnv1a(backends[i], 1);
      var h2 := Fnv1a(backends[i], 2);
      ps := ps + [Params(h1 % TABLE_SIZE, h2 % (TABLE_SIZE - 1) + 1)];
      i := i + 1;
    }
  }

  /** Build the table; empty list, empty table. */
  method Build(backends: seq<Ip6>) returns (table: seq<u32>)
    ensures table == Table(backends)
  {
    hide Filled, ParamsSeq, GoodAll;
    var n := |backends|;
    if n == 0 { return []; }
    ParamsGood(backends);
    var ps := Parameters(backends);
    var next: seq<nat> := seq(n, _ => 0);
    table := seq(TABLE_SIZE, _ => EMPTY);
    var filled := 0;
    FilledZero(ps);
    while filled < TABLE_SIZE
      invariant filled <= TABLE_SIZE && |next| == n && table == Filled(ps, filled)
      invariant filled < TABLE_SIZE ==> filled % n == 0
      invariant CursorsOk(ps, next, table)
      decreases TABLE_SIZE - filled
    {
      next, table, filled := PlayRound(ps, next, table, filled);
    }
  }

  lemma InRound(round: nat, i: nat, n: nat)
    requires i < n && round % n == 0
    ensures (round + i) % n == i
  {
    assert round == (round / n) * n;
    DivModOf(round / n, n, i);
  }

  lemma NextRound(round: nat, n: nat)
    requires n > 0 && round % n == 0
    ensures (round + n) % n == 0
  {
    assert round == (round / n) * n;
    assert round + n == (round / n + 1) * n + 0;
    DivModOf(round / n + 1, n, 0);
  }
}
