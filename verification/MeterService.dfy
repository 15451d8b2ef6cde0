/** What the token buckets must let through: exactly which traffic is never dropped. */
module MeterService {
  import opened Types
  import opened Meter

  // ---------------------------------------------------------------- one call

  /**
   * One call on one metered bucket, without rounding: a frame passes exactly when it is no longer than the
   * burst and the stock lacks no more than the (wrapping, one-second) refill. A pass costs exactly the
   * frame's length, a drop costs nothing.
   */
  lemma PassIff(b: Bucket, now: u64, len: u64)
    requires b.bps > 0
    ensures var (pass, t) := Take(b, now, len);
            var have := Min(b.burst, b.tokens + Refill(b.bps, Elapsed(b.lastNs, now)));
            (pass <==> len <= have) && t == have - if pass then len else 0
  {
    hide Refill;
  }

  /** The same in rate and time, for rates whose refill does not wrap. */
  lemma PassInTimeIff(b: Bucket, now: u64, len: u64)
    requires 0 < b.bps && b.bps * SECOND < U64
    ensures Take(b, now, len).0
       <==> && len <= b.burst
            && SECOND * len <= SECOND * b.tokens + b.bps * Min(Elapsed(b.lastNs, now), SECOND)
  {
    PassIff(b, now, len);
    RefillExact(b.bps, Elapsed(b.lastNs, now));
    hide Take, Refill;
    var x := b.bps * Min(Elapsed(b.lastNs, now), SECOND);
    RoundedDown(x, len, b.tokens);
  }

  lemma RoundedDown(x: nat, len: nat, tokens: nat)
    ensures len <= tokens + x / SECOND <==> SECOND * len <= SECOND * tokens + x
  {
  }

  /** A rate of zero drops nothing and charges nothing. */
  lemma UnlimitedPasses(b: Bucket, now: u64, len: u64)
    ensures b.bps == 0 ==> Take(b, now, len) == (true, b.tokens)
  {
  }

  /**
   * The buckets are charged one by one: a dropped frame still costs the total bucket its length exactly
   * when only the public bucket refused it.
   */
  lemma DropIsChargedIff(m: MeterState, c: Call)
    requires m.total.bps > 0 && c.len > 0 && !Step(m, c).1
    ensures var have := Min(m.total.burst, m.total.tokens + Refill(m.total.bps, Elapsed(m.total.lastNs, c.now)));
            && (Step(m, c).0.total.tokens == have - c.len <==> c.external && c.len <= have)
            && (Step(m, c).0.total.tokens == have <==> !c.external || have < c.len)
  {
    PassIff(m.total, c.now, c.len);
    hide Take, Refill;
  }

  // ---------------------------------------------------------------- one bucket over a run

  /** The bucket before call `n`. */
  function Before(b: Bucket, calls: seq<Call>, n: nat): (r: Bucket)
    requires n <= |calls|
    ensures r.bps == b.bps && r.burst == b.burst && (n > 0 ==> r.lastNs == calls[n - 1].now)
  {
    if n == 0 then b
    else
      var p := Before(b, calls, n - 1);
      p.(tokens := Take(p, calls[n - 1].now, calls[n - 1].len).1, lastNs := calls[n - 1].now)
  }

  predicate PassesAt(b: Bucket, calls: seq<Call>, n: nat)
    requires n < |calls|
  {
    Take(Before(b, calls, n), calls[n].now, calls[n].len).0
  }

  ghost predicate AllPass(b: Bucket, calls: seq<Call>) { forall n: nat | n < |calls| :: PassesAt(b, calls, n) }

  /** Bytes of the calls from `i` to `j`. */
  function Sent(calls: seq<Call>, i: nat, j: nat): nat
    requires i <= j < |calls|
  {
    calls[j].len + if i == j then 0 else Sent(calls, i, j - 1)
  }

  /** Refills after call `i`, up to call `j`. */
  function Credit(bps: u64, calls: seq<Call>, i: nat, j: nat): nat
    requires i <= j < |calls|
  {
    if i == j then 0
    else Credit(bps, calls, i, j - 1) + Refill(bps, Elapsed(calls[j - 1].now, calls[j].now))
  }

  /** First call of a window; -1 stands for the window that starts with the bucket as it is. */
  function First(i: int): nat { if i < 0 then 0 else i }

  /** What a window may send: a full bucket at its start (or the bucket as it is) and all later refills. */
  function Allowance(b: Bucket, calls: seq<Call>, i: int, j: nat): nat
    requires -1 <= i <= j < |calls|
  {
    Credit(b.bps, calls, First(i), j)
    + if i < 0 then b.tokens + Refill(b.bps, Elapsed(b.lastNs, calls[0].now)) else b.burst
  }

  predicate WindowOk(b: Bucket, calls: seq<Call>, i: int, j: nat)
    requires -1 <= i <= j < |calls|
  {
    Sent(calls, First(i), j) <= Allowance(b, calls, i, j)
  }

  /** No window of the run sends more than it may. */
  ghost predicate Conforms(b: Bucket, calls: seq<Call>) {
    forall i: int, j: nat | -1 <= i <= j < |calls| :: WindowOk(b, calls, i, j)
  }

  /** Tokens left after call `n`, seen from the window that started at `i`. */
  predicate AtMost(b: Bucket, calls: seq<Call>, i: int, n: nat)
    requires -1 <= i <= n < |calls|
  {
    Before(b, calls, n + 1).tokens + Sent(calls, First(i), n) <= Allowance(b, calls, i, n)
  }

  predicate AtLeast(b: Bucket, calls: seq<Call>, i: int, n: nat)
    requires -1 <= i <= n < |calls|
  {
    Before(b, calls, n + 1).tokens + Sent(calls, First(i), n) >= Allowance(b, calls, i, n)
  }

  /** The stock available to call `n`. */
  function Have(b: Bucket, calls: seq<Call>, n: nat): nat
    requires n < |calls|
  {
    var p := Before(b, calls, n);
    Min(p.burst, p.tokens + Refill(p.bps, Elapsed(p.lastNs, calls[n].now)))
  }

  lemma CallAt(b: Bucket, calls: seq<Call>, n: nat)
    requires b.bps > 0 && n < |calls|
    ensures PassesAt(b, calls, n) <==> calls[n].len <= Have(b, calls, n)
    ensures Before(b, calls, n + 1).tokens == Have(b, calls, n) - if PassesAt(b, calls, n) then calls[n].len else 0
  {
    PassIff(Before(b, calls, n), calls[n].now, calls[n].len);
    hide Take, Refill;
  }

  /** Growing a window by one call. */
  lemma WindowStep(b: Bucket, calls: seq<Call>, i: int, n: nat)
    requires -1 <= i <= n < |calls|
    ensures i == n ==> Sent(calls, First(i), n) == calls[n].len && Allowance(b, calls, i, n) == b.burst
    ensures i < n && n > 0 ==>
              var refill := Refill(b.bps, Elapsed(calls[n - 1].now, calls[n].now));
              && Sent(calls, First(i), n) == Sent(calls, First(i), n - 1) + calls[n].len
              && Allowance(b, calls, i, n) == Allowance(b, calls, i, n - 1) + refill
    ensures i < n && n == 0 ==>
              && Sent(calls, First(i), n) == calls[0].len
              && Allowance(b, calls, i, n) == b.tokens + Refill(b.bps, Elapsed(b.lastNs, calls[0].now))
  {
    hide Refill;
  }

  /** While everything passes, no window leaves more tokens than its allowance minus its bytes. */
  lemma {:induction false} NeverMore(b: Bucket, calls: seq<Call>, i: int, n: nat)
    requires b.bps > 0 && -1 <= i <= n < |calls| && forall l: nat | l <= n :: PassesAt(b, calls, l)
    ensures AtMost(b, calls, i, n)
    decreases n
  {
    hide Refill, Take;
    CallAt(b, calls, n);
    WindowStep(b, calls, i, n);
    if i < n && n > 0 {
      NeverMore(b, calls, i, n - 1);
    }
  }

  /** And some window leaves exactly that many. */
  lemma {:induction false} SomeExact(b: Bucket, calls: seq<Call>, n: nat) returns (i: int)
    requires b.bps > 0 && n < |calls| && forall l: nat | l <= n :: PassesAt(b, calls, l)
    ensures -1 <= i <= n && AtLeast(b, calls, i, n)
    decreases n
  {
    hide Refill, Take, AtLeast;
    CallAt(b, calls, n);
    if Have(b, calls, n) == b.burst {
      i := n;
    } else if n == 0 {
      i := -1;
    } else {
      i := SomeExact(b, calls, n - 1);
    }
    WindowStep(b, calls, i, n);
    ExactStep(b, calls, i, n);
  }

  lemma ExactStep(b: Bucket, calls: seq<Call>, i: int, n: nat)
    requires b.bps > 0 && -1 <= i <= n < |calls| && PassesAt(b, calls, n)
    requires if i == n then Have(b, calls, n) == b.burst
             else Have(b, calls, n) < b.burst && (n > 0 ==> AtLeast(b, calls, i, n - 1))
    ensures AtLeast(b, calls, i, n)
  {
    CallAt(b, calls, n);
    WindowStep(b, calls, i, n);
    hide Refill, Take, PassesAt, Sent, Allowance, Credit;
  }

  /** The window that decides whether call `n` fits. */
  lemma FitsIfConforming(b: Bucket, calls: seq<Call>, n: nat)
    requires b.bps > 0 && n < |calls| && Conforms(b, calls) && forall l: nat | l < n :: PassesAt(b, calls, l)
    ensures PassesAt(b, calls, n)
  {
    CallAt(b, calls, n);
    var i: int := n;
    if Have(b, calls, n) < b.burst {
      if n == 0 { i := -1; } else { i := SomeExact(b, calls, n - 1); }
    }
    assert WindowOk(b, calls, i, n);
    WindowStep(b, calls, i, n);
    hide Refill, Take, PassesAt, Sent, Allowance, Credit, Conforms;
  }

  lemma {:induction false} ConformingPass(b: Bucket, calls: seq<Call>, n: nat)
    requires b.bps > 0 && n <= |calls| && Conforms(b, calls)
    ensures forall l: nat | l < n :: PassesAt(b, calls, l)
  {
    hide PassesAt, Conforms;
    if n > 0 {
      ConformingPass(b, calls, n - 1);
      FitsIfConforming(b, calls, n - 1);
    }
  }

  /**
   * Exactly which traffic a metered bucket lets through entirely: in every window, no more bytes than a full
   * bucket and the window's refills, and from the start no more than the stock and all refills.
   */
  lemma AllPassIff(b: Bucket, calls: seq<Call>)
    requires b.bps > 0
    ensures AllPass(b, calls) <==> Conforms(b, calls)
  {
    hide PassesAt, WindowOk;
    if Conforms(b, calls) {
      ConformingPass(b, calls, |calls|);
    }
    if AllPass(b, calls) {
      forall i: int, j: nat | -1 <= i <= j < |calls|
        ensures WindowOk(b, calls, i, j)
      {
        NeverMore(b, calls, i, j);
        WithinAllowance(b, calls, i, j);
      }
    }
  }

  lemma WithinAllowance(b: Bucket, calls: seq<Call>, i: int, j: nat)
    requires -1 <= i <= j < |calls| && AtMost(b, calls, i, j)
    ensures WindowOk(b, calls, i, j)
  {
  }

  // ---------------------------------------------------------------- in rate and time

  /** Start of a window: when its first call came, or when the bucket was last touched. */
  function StartNs(b: Bucket, calls: seq<Call>, i: int): u64
    requires -1 <= i < |calls|
  {
    if i < 0 then b.lastNs else calls[i].now
  }

  function StartStock(b: Bucket, i: int): nat { if i < 0 then b.tokens else b.burst }

  /** Burst plus rate times time, less the rounding of one byte a call. */
  predicate WithinRate(b: Bucket, calls: seq<Call>, i: int, j: nat)
    requires -1 <= i <= j < |calls| && StartNs(b, calls, i) <= calls[j].now
  {
    SECOND * Sent(calls, First(i), j) + (j - i) * (SECOND - 1)
    <= SECOND * StartStock(b, i) + b.bps * (calls[j].now - StartNs(b, calls, i))
  }

  predicate Ordered(b: Bucket, calls: seq<Call>) {
    InOrder(calls) && (calls != [] ==> b.lastNs <= calls[0].now)
  }

  lemma OrderedStart(b: Bucket, calls: seq<Call>, i: int, j: nat)
    requires Ordered(b, calls) && -1 <= i <= j < |calls|
    ensures StartNs(b, calls, i) <= calls[j].now
  {
    if i < j && 0 < j { assert calls[0].now <= calls[j].now; }
  }

  ghost predicate KeepsRate(b: Bucket, calls: seq<Call>)
    requires Ordered(b, calls)
  {
    forall i: int, j: nat | -1 <= i <= j < |calls| ::
      (assert StartNs(b, calls, i) <= calls[j].now by { OrderedStart(b, calls, i, j); } WithinRate(b, calls, i, j))
  }

  /** Stock before call `n` as a window of real time sees it. */
  predicate Earned(b: Bucket, calls: seq<Call>, i: int, n: nat, have: nat)
    requires -1 <= i <= n < |calls| && StartNs(b, calls, i) <= calls[n].now
  {
    SECOND * (have + if i < n && n > 0 then Sent(calls, First(i), n - 1) else 0) + (n - i) * (SECOND - 1)
    >= SECOND * StartStock(b, i) + b.bps * (calls[n].now - StartNs(b, calls, i))
  }

  /** A refill of less than a second earns the rate, but for rounding; a longer one fills the bucket. */
  lemma RefillEarns(b: Bucket, elapsed: nat, tokens: nat)
    requires 0 < b.bps && b.bps * SECOND < U64 && b.burst <= b.bps
    requires tokens + Refill(b.bps, elapsed) < b.burst
    ensures SECOND * Refill(b.bps, elapsed) + (SECOND - 1) >= b.bps * elapsed
  {
    RefillAt(b.bps, elapsed);
    RefillExact(b.bps, elapsed);
    hide Refill;
    var x := b.bps * elapsed;
    assert SECOND * (x / SECOND) + (SECOND - 1) >= x;
  }

  lemma {:induction false} SomeEarned(b: Bucket, calls: seq<Call>, n: nat) returns (i: int)
    requires 0 < b.bps && b.bps * SECOND < U64 && b.burst <= b.bps && Ordered(b, calls) && n < |calls|
    requires forall l: nat | l < n :: PassesAt(b, calls, l)
    ensures -1 <= i <= n && StartNs(b, calls, i) <= calls[n].now && Earned(b, calls, i, n, Have(b, calls, n))
    decreases n
  {
    hide Refill, Take, Earned, PassesAt, Ordered;
    var p := Before(b, calls, n);
    if Have(b, calls, n) == b.burst {
      i := n;
    } else {
      RefillEarns(b, Elapsed(p.lastNs, calls[n].now), p.tokens);
      if n == 0 {
        i := -1;
      } else {
        i := SomeEarned(b, calls, n - 1);
        CallAt(b, calls, n - 1);
      }
    }
    OrderedStart(b, calls, i, n);
    if i < n {
      OrderedStart(b, calls, n - 1, n);
      if n > 0 { OrderedStart(b, calls, i, n - 1); }
      EarnedLater(b, calls, i, n);
    } else {
      EarnedNow(b, calls, n);
    }
  }

  lemma EarnedNow(b: Bucket, calls: seq<Call>, n: nat)
    requires n < |calls| && Have(b, calls, n) == b.burst
    ensures Earned(b, calls, n, n, Have(b, calls, n))
  {
    hide Have;
    NonNegative(b.bps, 0);
  }

  lemma EarnedLater(b: Bucket, calls: seq<Call>, i: int, n: nat)
    requires -1 <= i < n < |calls| || (i == -1 && n == 0 < |calls|)
    requires StartNs(b, calls, i) <= calls[n].now && StartNs(b, calls, n - 1) <= calls[n].now
    requires var p := Before(b, calls, n);
             var refill := Refill(b.bps, Elapsed(p.lastNs, calls[n].now));
             && Have(b, calls, n) == p.tokens + refill
             && SECOND * refill + (SECOND - 1) >= b.bps * Elapsed(p.lastNs, calls[n].now)
    requires n > 0 ==> StartNs(b, calls, i) <= calls[n - 1].now
                       && Earned(b, calls, i, n - 1, Have(b, calls, n - 1))
                       && Before(b, calls, n).tokens == Have(b, calls, n - 1) - calls[n - 1].len
    ensures Earned(b, calls, i, n, Have(b, calls, n))
  {
    hide Have, Refill, Take;
    if n > 0 {
      var last := calls[n - 1].now;
      assert Before(b, calls, n).lastNs == last;
      hide Before;
      assert Elapsed(last, calls[n].now) == calls[n].now - last;
      AddSpans(b.bps, last - StartNs(b, calls, i), calls[n].now - last);
      assert (last - StartNs(b, calls, i)) + (calls[n].now - last) == calls[n].now - StartNs(b, calls, i);
      var before := if i < n - 1 && n > 1 then Sent(calls, First(i), n - 2) else 0;
      assert Sent(calls, First(i), n - 1) == before + calls[n - 1].len;
    }
  }

  /**
   * The service promise in rate and time: traffic that in every window stays within one burst plus the rate
   * times the window (and, from the start, within the stock plus the rate times the time), less the rounding of
   * one byte a call, loses nothing. Bursts of at most one second's worth need no assumption on pauses.
   */
  lemma WithinRateIsNeverDropped(b: Bucket, calls: seq<Call>)
    requires 0 < b.bps && b.bps * SECOND < U64 && b.burst <= b.bps && Ordered(b, calls) && KeepsRate(b, calls)
    ensures AllPass(b, calls)
  {
    hide PassesAt;
    RatePass(b, calls, |calls|);
  }

  lemma {:induction false} RatePass(b: Bucket, calls: seq<Call>, n: nat)
    requires 0 < b.bps && b.bps * SECOND < U64 && b.burst <= b.bps && Ordered(b, calls) && KeepsRate(b, calls)
    requires n <= |calls|
    ensures forall l: nat | l < n :: PassesAt(b, calls, l)
  {
    hide PassesAt, Ordered, WithinRate, Earned, Have;
    if n > 0 {
      RatePass(b, calls, n - 1);
      var i := SomeEarned(b, calls, n - 1);
      assert WithinRate(b, calls, i, n - 1);
      hide KeepsRate;
      EarnedIsEnough(b, calls, i, n - 1);
      CallAt(b, calls, n - 1);
    }
  }

  lemma EarnedIsEnough(b: Bucket, calls: seq<Call>, i: int, n: nat)
    requires -1 <= i <= n < |calls| && StartNs(b, calls, i) <= calls[n].now
    requires WithinRate(b, calls, i, n) && Earned(b, calls, i, n, Have(b, calls, n))
    ensures calls[n].len <= Have(b, calls, n)
  {
    hide Have;
    assert i < n && n > 0 ==> Sent(calls, First(i), n) == Sent(calls, First(i), n - 1) + calls[n].len;
  }

  // ---------------------------------------------------------------- both buckets

  /** The external calls of a run, in order. */
  function Externals(calls: seq<Call>): (r: seq<Call>)
    ensures |r| <= |calls|
  {
    if calls == [] then []
    else
      var n := |calls| - 1;
      Externals(calls[..n]) + if calls[n].external then [calls[n]] else []
  }

  ghost predicate NothingDropped(m: MeterState, calls: seq<Call>) {
    forall n | 0 <= n < |calls| :: Step(After(m, calls[..n]), calls[n]).1
  }

  /** A bucket's state depends on the calls so far only. */
  lemma {:induction false} BeforePrefix(b: Bucket, x: seq<Call>, y: seq<Call>, n: nat)
    requires n <= |x| && n <= |y| && forall i | 0 <= i < n :: x[i] == y[i]
    ensures Before(b, x, n) == Before(b, y, n)
  {
    hide Take;
    if n > 0 { BeforePrefix(b, x, y, n - 1); }
  }

  lemma AllPassSnoc(b: Bucket, calls: seq<Call>, c: Call)
    ensures AllPass(b, calls + [c]) <==> AllPass(b, calls) && Take(Before(b, calls, |calls|), c.now, c.len).0
    ensures var p := Before(b, calls, |calls|);
            Before(b, calls + [c], |calls| + 1) == p.(tokens := Take(p, c.now, c.len).1, lastNs := c.now)
  {
    hide Take;
    var all := calls + [c];
    forall n: nat | n <= |calls|
      ensures Before(b, all, n) == Before(b, calls, n)
    {
      BeforePrefix(b, all, calls, n);
    }
    assert forall n: nat | n < |calls| :: PassesAt(b, all, n) <==> PassesAt(b, calls, n);
    assert PassesAt(b, all, |calls|) <==> Take(Before(b, calls, |calls|), c.now, c.len).0;
  }

  lemma NothingDroppedSnoc(m: MeterState, calls: seq<Call>)
    requires calls != []
    ensures var n := |calls| - 1;
            NothingDropped(m, calls) <==> NothingDropped(m, calls[..n]) && Step(After(m, calls[..n]), calls[n]).1
  {
    hide After, Step;
    var n := |calls| - 1;
    assert forall k | 0 <= k < n :: calls[..n][..k] == calls[..k] && calls[..n][k] == calls[k];
  }

  /** The two buckets run side by side, one over all calls, one over the external ones. */
  lemma {:induction false} SideBySide(m: MeterState, calls: seq<Call>)
    ensures After(m, calls)
         == MeterState(Before(m.total, calls, |calls|), Before(m.public, Externals(calls), |Externals(calls)|))
    ensures NothingDropped(m, calls) <==> AllPass(m.total, calls) && AllPass(m.public, Externals(calls))
  {
    hide Take, AllPass, NothingDropped;
    if calls == [] {
      NothingYet(m);
      assert Externals(calls) == [];
    } else {
      var n := |calls| - 1;
      var init, c := calls[..n], calls[n];
      assert calls == init + [c];
      assert Externals(calls) == if c.external then Externals(init) + [c] else Externals(init);
      SideBySide(m, init);
      AllPassSnoc(m.total, init, c);
      if c.external { AllPassSnoc(m.public, Externals(init), c); }
      NothingDroppedSnoc(m, calls);
    }
  }

  lemma NothingYet(m: MeterState)
    ensures NothingDropped(m, []) && AllPass(m.total, []) && AllPass(m.public, [])
  {
  }

  ghost predicate Fits(b: Bucket, calls: seq<Call>) { b.bps == 0 || Conforms(b, calls) }

  lemma FitsIff(b: Bucket, calls: seq<Call>)
    ensures AllPass(b, calls) <==> Fits(b, calls)
  {
    hide Conforms, Take, Before;
    if b.bps > 0 {
      hide AllPass;
      AllPassIff(b, calls);
    } else {
      forall n: nat | n < |calls|
        ensures PassesAt(b, calls, n)
      {
        UnlimitedPasses(Before(b, calls, n), calls[n].now, calls[n].len);
      }
    }
  }

  /**
   * Over every run of one interface: no frame is dropped exactly when all traffic fits the total bucket and
   * external traffic fits the public one; a rate of zero is no limit.
   */
  lemma NothingDroppedIff(m: MeterState, calls: seq<Call>)
    ensures NothingDropped(m, calls) <==> Fits(m.total, calls) && Fits(m.public, Externals(calls))
  {
    hide *;
    SideBySide(m, calls);
    FitsIff(m.total, calls);
    FitsIff(m.public, Externals(calls));
  }

  // ---------------------------------------------------------------- configured meters

  /**
   * A configured bucket: 125000 bytes per second for each Mbit/s until the product saturates; an eighth of a
   * second's worth as stock; the burst is the same, but at least 2000 bytes.
   */
  lemma NewBucketIs(mbps: u64)
    ensures var b := NewBucket(mbps);
            && b.lastNs == 0
            && (mbps <= 18446744073709 ==>
                  && b.bps == mbps * 125_000 && b.tokens == mbps * 15_625
                  && b.burst == if mbps == 0 then 2000 else mbps * 15_625)
            && (mbps > 18446744073709 ==>
                  b.bps == 0x1fff_ffff_ffff_ffff && b.tokens == b.burst == 0x3ff_ffff_ffff_ffff)
  {
  }

  /** So the promise in rate and time covers every rate from 1 to 147573 Mbit/s. */
  lemma ConfiguredIsServed(mbps: u64, calls: seq<Call>)
    requires 1 <= mbps <= 147573
    requires Ordered(NewBucket(mbps), calls) && KeepsRate(NewBucket(mbps), calls)
    ensures AllPass(NewBucket(mbps), calls)
  {
    hide *;
    WrapFree(mbps);
    NewBucketIs(mbps);
    WithinRateIsNeverDropped(NewBucket(mbps), calls);
  }

  lemma WrapFree(mbps: nat)
    requires 1 <= mbps <= 147573
    ensures mbps <= 18446744073709 && mbps * 125_000 * SECOND < U64
  {
  }
}
