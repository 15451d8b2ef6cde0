/** The per-flow TCP tracker and the idle timeouts that depend on it. */
module Tracker {
  import opened Types
  import opened Maps

  const TCP_NONE: u8 := 0
  const TCP_NEW_SYN: u8 := 1
  const TCP_NEW_SYNACK: u8 := 2
  const TCP_ESTABLISHED: u8 := 3
  const TCP_FINWAIT: u8 := 4
  const TCP_RST_FIN: u8 := 5

  const FIN: bv8 := 0x01
  const SYN: bv8 := 0x02
  const RST: bv8 := 0x04
  const ACK: bv8 := 0x10

  function TcpAdvance(state: u8, flags: bv8): u8 {
    if Has(flags, RST) then TCP_RST_FIN
    else if Has(flags, FIN) then TCP_FINWAIT
    else if Has(flags, SYN) then (if Has(flags, ACK) then TCP_NEW_SYNACK else TCP_NEW_SYN)
    else if Has(flags, ACK) && (state == TCP_NEW_SYNACK || state == TCP_NEW_SYN || state == TCP_ESTABLISHED)
      then TCP_ESTABLISHED
    else state
  }

  /** The state after a whole packet history, oldest packet first. */
  function Track(history: seq<bv8>): u8 {
    if history == [] then TCP_NONE
    else TcpAdvance(Track(history[..|history| - 1]), history[|history| - 1])
  }

  predicate IsControl(f: bv8) { Has(f, SYN) || Has(f, FIN) || Has(f, RST) }

  predicate Opens(f: bv8) { Has(f, SYN) && !Has(f, FIN) && !Has(f, RST) }

  /** Packet `j` is the latest one of the history that carries SYN, FIN or RST. */
  ghost predicate LatestControl(history: seq<bv8>, j: nat) {
    j < |history| && IsControl(history[j]) && forall i | j < i < |history| :: !IsControl(history[i])
  }

  ghost predicate AckAfter(history: seq<bv8>, j: int) {
    exists i :: 0 <= i < |history| && j < i && Has(history[i], ACK)
  }

  /** What the latest control packet decides, given whether an ACK followed it. */
  function StateFrom(f: bv8, acked: bool): u8 {
    if Has(f, RST) then TCP_RST_FIN
    else if Has(f, FIN) then TCP_FINWAIT
    else if acked then TCP_ESTABLISHED
    else if Has(f, ACK) then TCP_NEW_SYNACK
    else TCP_NEW_SYN
  }

  lemma AckAfterSnoc(history: seq<bv8>, j: nat)
    requires j < |history|
    ensures var n := |history| - 1;
            AckAfter(history, j) <==> j < n && (AckAfter(history[..n], j) || Has(history[n], ACK))
  {
    hide Has;
    var n := |history| - 1;
    if j < n {
      if AckAfter(history[..n], j) {
        var i :| 0 <= i < n && j < i && Has(history[..n][i], ACK);
        assert Has(history[i], ACK);
      }
      if AckAfter(history, j) && !Has(history[n], ACK) {
        var i :| 0 <= i <= n && j < i && Has(history[i], ACK);
        assert Has(history[..n][i], ACK);
      }
    }
  }

  /** The tracker depends on the latest control packet and on whether any later packet had ACK, nothing else. */
  lemma {:induction false} TrackIsDecidedByLatestControl(history: seq<bv8>)
    ensures (forall i | 0 <= i < |history| :: !IsControl(history[i])) ==> Track(history) == TCP_NONE
    ensures forall j: nat | LatestControl(history, j) ::
              Track(history) == StateFrom(history[j], AckAfter(history, j))
  {
    hide Has, AckAfter;
    if history != [] {
      var n := |history| - 1;
      var init, last := history[..n], history[n];
      TrackIsDecidedByLatestControl(init);
      forall j: nat | LatestControl(history, j)
        ensures Track(history) == StateFrom(history[j], AckAfter(history, j))
      {
        AckAfterSnoc(history, j);
        if j < n {
          assert LatestControl(init, j);
          assert Track(init) == StateFrom(init[j], AckAfter(init, j));
        }
      }
    }
  }

  /**
   * What is stored, by the latest control packet: RST_FIN (5) after a reset, FINWAIT (4) after a FIN, ESTABLISHED (3)
   * once an ACK follows the SYN, before that NEW_SYNACK (2) or NEW_SYN (1).
   */
  lemma StoredState(history: seq<bv8>, j: nat)
    requires LatestControl(history, j)
    ensures Track(history) == if Has(history[j], 0x04) then 5 else if Has(history[j], 0x01) then 4
                              else if AckAfter(history, j) then 3 else if Has(history[j], 0x10) then 2 else 1
  {
    TrackIsDecidedByLatestControl(history);
    hide Has, AckAfter, Track;
  }

  /** The latest SYN/FIN/RST packet is a pure opening and some later packet acknowledged. */
  ghost predicate Established(history: seq<bv8>) {
    exists j: nat :: LatestControl(history, j) && Opens(history[j]) && AckAfter(history, j)
  }

  /** Hence a finished or reset flow never returns to ESTABLISHED without a new SYN. */
  lemma EstablishedIff(history: seq<bv8>)
    ensures Track(history) == TCP_ESTABLISHED <==> Established(history)
  {
    TrackIsDecidedByLatestControl(history);
    if exists i :: 0 <= i < |history| && IsControl(history[i]) {
      var j := FindLatest(history);
      assert LatestControl(history, j);
    }
  }

  lemma FindLatest(history: seq<bv8>) returns (j: nat)
    requires exists i :: 0 <= i < |history| && IsControl(history[i])
    ensures LatestControl(history, j)
  {
    j := |history| - 1;
    while !IsControl(history[j])
      decreases j
      invariant j < |history| && forall i | j < i < |history| :: !IsControl(history[i])
    {
      j := j - 1;
    }
  }

  // ---------------------------------------------------------------- idle timeouts

  const DEFAULT_TIMEOUT_NS: u64 := 30 * 1_000_000_000
  const TCP_ESTABLISHED_TIMEOUT_NS: u64 := 24 * 60 * 60 * 1_000_000_000

  function TimeoutNs(e: CtEntry): u64 {
    if e.tcpState == TCP_ESTABLISHED then TCP_ESTABLISHED_TIMEOUT_NS else DEFAULT_TIMEOUT_NS
  }

  /** Idle beyond the timeout; a clock behind `lastSeen` counts as no idle time. */
  predicate Stale(e: CtEntry, now: u64) {
    (if now >= e.lastSeen then now - e.lastSeen else 0) > TimeoutNs(e)
  }
}
