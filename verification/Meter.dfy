/** The egress token buckets and their rate bound over every window of every run. */
module Meter {
  import opened Types

  const SECOND: nat := 1_000_000_000
  const U64: nat := 0x1_0000_0000_0000_0000

  datatype Bucket = Bucket(bps: u64, burst: u64, tokens: u64, lastNs: u64)

  /** One interface: `total` gates all egress, `public` gates external egress. */
  datatype MeterState = MeterState(total: Bucket, public: Bucket)

  function Min(a: nat, b: nat): nat { if a < b then a else b }

  function Elapsed(lastNs: u64, now: u64): nat { if now > lastNs then now - lastNs else 0 }

  /** Bytes refilled after `elapsed` ns, at most one second's worth; the product wraps at 64 bits. */
  function Refill(bps: u64, elapsed: nat): nat {
    var capped := Min(elapsed, SECOND);
    capped / SECOND * bps + (capped % SECOND * bps) % U64 / SECOND
  }

  /** Refill, cap, and take `len` tokens if there are enough. A zero rate means unlimited. */
  function Take(b: Bucket, now: u64, len: u64): (bool, u64) {
    if b.bps == 0 then (true, b.tokens) else
    var t := Min(Min(b.tokens + Refill(b.bps, Elapsed(b.lastNs, now)), U64 - 1), b.burst);
    if t >= len then (true, t - len) else (false, t)
  }

  datatype Call = Call(now: u64, len: u64, external: bool)

  function Step(m: MeterState, c: Call): (MeterState, bool) {
    var (passT, tokT) := Take(m.total, c.now, c.len);
    var m1 := m.(total := m.total.(tokens := tokT, lastNs := c.now));
    if c.external then
      var (passP, tokP) := Take(m.public, c.now, c.len);
      (m1.(public := m.public.(tokens := tokP, lastNs := c.now)), passT && passP)
    else (m1, passT)
  }

  class Meters {
    var meters: map<u32, MeterState>

    constructor ()
      ensures meters == map[]
    {
      meters := map[];
    }

    /** True lets the frame pass; an interface without a meter is unlimited. */
    method MeterPass(ifindex: u32, len: u64, isExternal: bool, now: u64) returns (pass: bool)
      modifies this
      ensures ifindex !in old(meters) ==> pass && meters == old(meters)
      ensures ifindex in old(meters) ==>
                var (m, p) := Step(old(meters)[ifindex], Call(now, len, isExternal));
                pass == p && meters == old(meters)[ifindex := m]
    {
      hide Refill;
      if ifindex !in meters { return true; }
      var m := meters[ifindex];
      var (passT, tokT) := Take(m.total, now, len);
      m := m.(total := m.total.(tokens := tokT, lastNs := now));
      pass := passT;
      if isExternal {
        var (passP, tokP) := Take(m.public, now, len);
        m := m.(public := m.public.(tokens := tokP, lastNs := now));
        pass := pass && passP;
      }
      meters := meters[ifindex := m];
    }
  }

  // ---------------------------------------------------------------- refill

  /** Refill never exceeds the rate, even when the product wraps. */
  lemma RefillBound(bps: u64, elapsed: nat)
    ensures SECOND * Refill(bps, elapsed) <= bps * elapsed
  {
    var capped := Min(elapsed, SECOND);
    if capped == SECOND {
      assert SECOND * bps <= elapsed * bps;
    } else {
      var x := capped * bps;
      assert capped % SECOND == capped && capped / SECOND == 0;
      assert SECOND * (x % U64 / SECOND) <= x % U64 <= x;
      assert x <= elapsed * bps;
    }
  }

  /** Below 2^64 / 10^9 bytes per second nothing wraps: the refill is the rate times the capped time, rounded down. */
  lemma RefillExact(bps: u64, elapsed: nat)
    requires bps * SECOND < U64
    ensures Refill(bps, elapsed) == bps * Min(elapsed, SECOND) / SECOND
  {
    RefillAt(bps, elapsed);
    hide Refill;
    if elapsed >= SECOND {
      WholeSecond(bps);
    } else {
      Unwrapped(bps, elapsed);
    }
  }

  lemma Unwrapped(bps: nat, elapsed: nat)
    requires bps * SECOND < U64 && elapsed <= SECOND
    ensures elapsed * bps % U64 == bps * elapsed
  {
    MulMono(bps, elapsed, SECOND);
    var x := bps * elapsed;
    assert elapsed * bps == x;
    BelowModulus(x);
  }

  /** Only a whole second takes the unwrapped term, only less than one the wrapped term. */
  lemma RefillAt(bps: u64, elapsed: nat)
    ensures elapsed >= SECOND ==> Refill(bps, elapsed) == bps
    ensures elapsed < SECOND ==> Refill(bps, elapsed) == elapsed * bps % U64 / SECOND
  {
    var capped := Min(elapsed, SECOND);
    if elapsed >= SECOND {
      assert capped / SECOND == 1 && capped % SECOND == 0;
    } else {
      assert capped / SECOND == 0 && capped % SECOND == elapsed;
    }
  }

  lemma WholeSecond(bps: nat)
    ensures bps * SECOND / SECOND == bps
  {
  }

  lemma BelowModulus(x: nat)
    requires x < U64
    ensures x % U64 == x
  {
  }

  lemma MulMono(k: nat, a: nat, b: nat)
    requires a <= b
    ensures k * a <= k * b
  {
  }

  /** One bucket step in terms of tokens: what is kept and what is let through come from stock and refill. */
  lemma TakeBudget(b: Bucket, now: u64, len: u64)
    requires b.bps > 0
    ensures var (pass, t) := Take(b, now, len);
            var out := if pass then len else 0;
            && t + out <= b.burst
            && SECOND * (t + out) <= SECOND * b.tokens + b.bps * Elapsed(b.lastNs, now)
  {
    RefillBound(b.bps, Elapsed(b.lastNs, now));
    hide Refill;
  }

  /** Carrying a budget across one call. */
  lemma BudgetStep(b: Bucket, passed: nat, t0: u64, now: u64, len: u64)
    requires b.bps > 0 && t0 <= b.lastNs <= now
    requires SECOND * (b.tokens + passed) <= SECOND * b.burst + b.bps * (b.lastNs - t0)
    ensures var (pass, t) := Take(b, now, len);
            SECOND * (t + passed + if pass then len else 0) <= SECOND * b.burst + b.bps * (now - t0)
  {
    TakeBudget(b, now, len);
    hide Take;
    AddSpans(b.bps, b.lastNs - t0, now - b.lastNs);
  }

  lemma NonNegative(bps: nat, span: nat)
    ensures bps * span >= 0
  {
  }

  lemma AddSpans(bps: nat, a: nat, b: nat)
    ensures bps * a + bps * b == bps * (a + b)
  {
  }

  // ---------------------------------------------------------------- runs

  function After(m: MeterState, calls: seq<Call>): MeterState {
    if calls == [] then m else Step(After(m, calls[..|calls| - 1]), calls[|calls| - 1]).0
  }

  /** Bytes let through by a run of calls, over all traffic and over external traffic. */
  function Passed(m: MeterState, calls: seq<Call>): nat {
    if calls == [] then 0 else
    var n := |calls| - 1;
    Passed(m, calls[..n]) + if Step(After(m, calls[..n]), calls[n]).1 then calls[n].len else 0
  }

  function PassedExternal(m: MeterState, calls: seq<Call>): nat {
    if calls == [] then 0 else
    var n := |calls| - 1;
    PassedExternal(m, calls[..n])
    + if calls[n].external && Step(After(m, calls[..n]), calls[n]).1 then calls[n].len else 0
  }

  predicate InOrder(calls: seq<Call>) { forall i, j | 0 <= i < j < |calls| :: calls[i].now <= calls[j].now }

  lemma ConfigKept(m: MeterState, calls: seq<Call>)
    ensures var r := After(m, calls);
            && r.total.bps == m.total.bps && r.total.burst == m.total.burst
            && r.public.bps == m.public.bps && r.public.burst == m.public.burst
  {
    hide Take;
  }

  /** Stock plus traffic so far never exceeds one burst plus the rate over the window. */
  lemma {:induction false} TotalBudget(m: MeterState, calls: seq<Call>)
    requires m.total.bps > 0 && calls != [] && InOrder(calls)
    ensures var r, n := After(m, calls), |calls| - 1;
            && r.total.lastNs == calls[n].now
            && SECOND * (r.total.tokens + Passed(m, calls))
               <= SECOND * m.total.burst + m.total.bps * (calls[n].now - calls[0].now)
  {
    hide Take, Refill;
    var n := |calls| - 1;
    var init := calls[..n];
    var s := After(m, init);
    ConfigKept(m, init);
    if n > 0 {
      TotalBudget(m, init);
      BudgetStep(s.total, Passed(m, init), calls[0].now, calls[n].now, calls[n].len);
    } else {
      TakeBudget(s.total, calls[n].now, calls[n].len);
      NonNegative(m.total.bps, 0);
    }
  }

  predicate SomeExternal(calls: seq<Call>) { exists i | 0 <= i < |calls| :: calls[i].external }

  lemma SomeExternalSnoc(calls: seq<Call>)
    requires calls != []
    ensures var n := |calls| - 1; SomeExternal(calls) <==> SomeExternal(calls[..n]) || calls[n].external
  {
    var n := |calls| - 1;
    if SomeExternal(calls[..n]) {
      var i :| 0 <= i < n && calls[..n][i].external;
      assert calls[i].external;
    }
    if SomeExternal(calls) && !calls[n].external {
      var i :| 0 <= i <= n && calls[i].external;
      assert calls[..n][i].external;
    }
  }

  /** The budget of external traffic, counted up to the latest external call (none so far: nothing passed). */
  predicate BudgetOk(seen: bool, passed: nat, b: Bucket, t0: u64, t: u64) {
    if seen then
      t0 <= b.lastNs <= t && SECOND * (b.tokens + passed) <= SECOND * b.burst + b.bps * (b.lastNs - t0)
    else passed == 0
  }

  lemma BudgetOkStep(seen: bool, passed: nat, b: Bucket, t0: u64, t: u64, now: u64, len: u64)
    requires b.bps > 0 && t0 <= t <= now && BudgetOk(seen, passed, b, t0, t)
    ensures var (pass, tok) := Take(b, now, len);
            BudgetOk(true, passed + if pass then len else 0, b.(tokens := tok, lastNs := now), t0, now)
  {
    hide Take, Refill;
    if seen {
      BudgetStep(b, passed, t0, now, len);
    } else {
      TakeBudget(b, now, len);
      NonNegative(b.bps, now - t0);
    }
  }

  /** A frame that `public` would let through may still be held back by `total`. */
  lemma BudgetOkLess(seen: bool, more: nat, passed: nat, b: Bucket, t0: u64, t: u64)
    requires BudgetOk(seen, more, b, t0, t) && passed <= more
    ensures BudgetOk(seen, passed, b, t0, t)
  {
  }

  lemma {:induction false} PublicBudget(m: MeterState, calls: seq<Call>)
    requires m.public.bps > 0 && calls != [] && InOrder(calls)
    ensures BudgetOk(SomeExternal(calls), PassedExternal(m, calls), After(m, calls).public,
                     calls[0].now, calls[|calls| - 1].now)
  {
    var n := |calls| - 1;
    var init, c := calls[..n], calls[n];
    var b, t0 := After(m, init).public, calls[0].now;
    ConfigKept(m, init);
    SomeExternalSnoc(calls);
    hide SomeExternal;
    var t := t0;
    if n > 0 {
      PublicBudget(m, init);
      t := calls[n - 1].now;
    } else {
      assert !SomeExternal(init) by { NoneExternal(init); }
    }
    var passed := PassedExternal(m, init);
    assert t0 <= t <= c.now;
    if c.external {
      BudgetOkStep(SomeExternal(init), passed, b, t0, t, c.now, c.len);
      var (pass, tok) := Take(b, c.now, c.len);
      hide Take, BudgetOk;
      BudgetOkLess(true, passed + if pass then c.len else 0, PassedExternal(m, calls), After(m, calls).public, t0,
                   c.now);
    } else {
      BudgetOkLater(SomeExternal(init), passed, b, t0, t, c.now);
      hide Take, BudgetOk;
    }
  }

  lemma NoneExternal(calls: seq<Call>)
    requires calls == []
    ensures !SomeExternal(calls)
  {
  }

  lemma BudgetOkLater(seen: bool, passed: nat, b: Bucket, t0: u64, t: u64, now: u64)
    requires BudgetOk(seen, passed, b, t0, t) && t <= now
    ensures BudgetOk(seen, passed, b, t0, now)
  {
  }

  /**
   * Rate bound on all traffic: in every window of every run with ordered time stamps, whatever the state
   * the window starts from, the bytes passed are at most one burst plus the rate times the window.
   */
  lemma TotalRateBound(m: MeterState, calls: seq<Call>)
    requires calls != [] && InOrder(calls) && m.total.bps > 0
    ensures SECOND * Passed(m, calls)
         <= SECOND * m.total.burst + m.total.bps * (calls[|calls| - 1].now - calls[0].now)
  {
    TotalBudget(m, calls);
  }

  /** The same bound on external traffic for the public rate. */
  lemma PublicRateBound(m: MeterState, calls: seq<Call>)
    requires calls != [] && InOrder(calls) && m.public.bps > 0
    ensures SECOND * PassedExternal(m, calls)
         <= SECOND * m.public.burst + m.public.bps * (calls[|calls| - 1].now - calls[0].now)
  {
    PublicBudget(m, calls);
    ConfigKept(m, calls);
    assert calls[0].now <= calls[|calls| - 1].now;
    hide PassedExternal, After, SomeExternal, InOrder;
    BudgetWithin(SomeExternal(calls), PassedExternal(m, calls), After(m, calls).public,
                 calls[0].now, calls[|calls| - 1].now);
  }

  lemma BudgetWithin(seen: bool, passed: nat, b: Bucket, t0: u64, t: u64)
    requires BudgetOk(seen, passed, b, t0, t) && t0 <= t
    ensures SECOND * passed <= SECOND * b.burst + b.bps * (t - t0)
  {
    if seen {
      MulMono(b.bps, b.lastNs - t0, t - t0);
    }
  }

  /** Tokens never exceed the burst once they do not. */
  lemma {:induction false} TokensWithinBurst(m: MeterState, calls: seq<Call>)
    requires m.total.tokens <= m.total.burst && m.public.tokens <= m.public.burst
    ensures var r := After(m, calls); r.total.tokens <= r.total.burst && r.public.tokens <= r.public.burst
  {
    hide Refill;
    if calls != [] {
      TokensWithinBurst(m, calls[..|calls| - 1]);
    }
  }

  // ---------------------------------------------------------------- configuration

  function Max(a: u64, b: u64): u64 { if a > b then a else b }

  /** Bytes per second of a rate in Mbit/s, with a saturating product. */
  function BytesPerSecond(mbps: u64): u64 { Min(mbps * 1_000_000, U64 - 1) / 8 }

  function NewBucket(mbps: u64): Bucket {
    var b := BytesPerSecond(mbps);
    Bucket(b, Max(b / 8, 2000), b / 8, 0)
  }

  function NewMeter(totalMbps: u64, publicMbps: u64): MeterState {
    MeterState(NewBucket(totalMbps), NewBucket(publicMbps))
  }

  /** Fresh meters start within their burst; up to 147573 Mbit/s the refill arithmetic does not wrap. */
  lemma NewMeterOk(totalMbps: u64, publicMbps: u64)
    ensures var m := NewMeter(totalMbps, publicMbps);
            && m.total.tokens <= m.total.burst && m.public.tokens <= m.public.burst
            && (m.total.bps * SECOND < U64 <==> totalMbps <= 147573)
            && (m.total.bps == 0 <==> totalMbps == 0)
  {
  }
}
