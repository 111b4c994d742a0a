/** Baud-derived and configured time constants of the retry machinery. */
module Timing {
  import opened Wire

  /** The configuration the retry machinery reads. */
  datatype RetryConfig = RetryConfig(syncAckTimeoutMs: uint32, maxRetx: byte, gbnResendBurstMax: int, baud: uint32)

  /** Two 5-byte control frames at 10 bits a byte, rounded to the nearest millisecond. */
  function RoundTripMs(baud: uint32): nat
    requires baud > 0
  {
    (200_000 + baud) / (2 * baud)
  }

  /** Twice the wire time of one chunk, never below the configured ACK timeout. */
  function BaudAwareRtoMs(cfg: RetryConfig): uint32 {
    if cfg.baud == 0 then cfg.syncAckTimeoutMs
    else
      var rto := (MAX_CHUNK + 4) * 10 * 1000 / cfg.baud * 2;
      if rto > cfg.syncAckTimeoutMs then rto else cfg.syncAckTimeoutMs
  }

  /** How long a base may stay put before it counts as stuck: the drain time of what is pending. */
  function StuckThresholdMs(cfg: RetryConfig, pending: nat): nat {
    if cfg.baud == 0 || pending == 0 then cfg.syncAckTimeoutMs
    else
      var total := pending * (MAX_CHUNK + MSG_HDR) * 10_000 / cfg.baud + RoundTripMs(cfg.baud);
      if total < cfg.syncAckTimeoutMs then cfg.syncAckTimeoutMs else total
  }

  /** The wire time of one resend and its answer, at least 2 ms. */
  function ResendFlightMs(cfg: RetryConfig): uint32 {
    if cfg.baud == 0 then cfg.syncAckTimeoutMs
    else
      var rtt := (MAX_CHUNK + 4) * 10 * 1000 / cfg.baud * 2;
      if rtt > 2 then rtt else 2
  }

  /** NAKs for one base inside this window of a resend report the same loss. */
  function DedupWindowMs(cfg: RetryConfig): nat {
    var w := ResendFlightMs(cfg) * 2;
    if w < 16 then 16 else w
  }

  function BackoffCapMs(cfg: RetryConfig): uint32 {
    var cap := cfg.syncAckTimeoutMs * 8 % 0x1_0000_0000;
    if cap < cfg.syncAckTimeoutMs then cfg.syncAckTimeoutMs else cap
  }

  /** How long a node camps at a baud that has worked before: 8 ACK timeouts, between 3 and 5 seconds. */
  function CampBudgetMs(syncAckTimeoutMs: uint32): uint32 {
    var b := syncAckTimeoutMs * 8 % 0x1_0000_0000;
    if b < 3000 then 3000 else if b > 5000 then 5000 else b
  }

  function ResendCap(pending: int, cap: int): int {
    if pending <= 0 || cap <= 0 then 0
    else if pending < cap then pending else cap
  }

  /** `b` shifted left `k` times, without overflow. */
  function Shifted(b: nat, k: nat): nat {
    if k == 0 then b else 2 * Shifted(b, k - 1)
  }

  /** The pause before retransmission round `round`: the base pause doubled each round, up to a cap. */
  function Backoff(round: int, baseMs: uint32, maxMs: uint32): uint32 {
    if round <= 1 then baseMs
    else
      var cap := if maxMs < baseMs then baseMs else maxMs;
      var b := Shifted(baseMs, round - 1);
      if b > cap then cap else b
  }

  lemma {:induction false} ShiftedGrows(b: nat, m: nat, n: nat)
    requires m <= n
    ensures Shifted(b, m) <= Shifted(b, n)
  {
    if m < n {
      ShiftedGrows(b, m, n - 1);
    }
  }

  /** The pause never shrinks from one round to the next, and is never below the base pause. */
  lemma BackoffMonotone(round: int, baseMs: uint32, maxMs: uint32)
    ensures baseMs <= Backoff(round, baseMs, maxMs) <= Backoff(round + 1, baseMs, maxMs)
  {
    if round >= 1 {
      ShiftedGrows(baseMs, 0, round - 1);
      ShiftedGrows(baseMs, round - 1, round);
    }
  }

  method DecideGbnBackoff(noProgress: int, baseMs: uint32, max: uint32) returns (r: uint32)
    ensures r == Backoff(noProgress, baseMs, max)
  {
    if noProgress <= 1 {
      return baseMs;
    }
    if baseMs == 0 {
      ShiftedZero(noProgress - 1);
      return 0;
    }
    var maxMs := if max < baseMs then baseMs else max;
    var b: nat, i: nat := baseMs, 1;
    while i < noProgress && b < maxMs
      invariant 1 <= i <= noProgress
      invariant b == Shifted(baseMs, i - 1)
    {
      b := b * 2;
      i := i + 1;
    }
    ShiftedGrows(baseMs, i - 1, noProgress - 1);
    r := if b > maxMs then maxMs else b;
  }

  lemma {:induction false} ShiftedZero(k: nat)
    ensures Shifted(0, k) == 0
  {
    if k > 0 {
      ShiftedZero(k - 1);
    }
  }

  /** Each further round doubles the pause, up to the cap. */
  lemma BackoffDoubles(round: nat, baseMs: uint32, maxMs: uint32)
    requires round >= 1 && baseMs <= maxMs
    ensures var twice := 2 * Backoff(round, baseMs, maxMs);
      Backoff(1, baseMs, maxMs) == baseMs
      && Backoff(round + 1, baseMs, maxMs) == if twice > maxMs then maxMs else twice
  {
    if round >= 2 { ShiftedGrows(baseMs, 0, round - 1); }
  }

  /** The RTO covers the wire time of one chunk there and of one back, to the millisecond, and the ACK timeout. */
  lemma RtoCoversWire(cfg: RetryConfig)
    ensures BaudAwareRtoMs(cfg) >= cfg.syncAckTimeoutMs
    ensures cfg.baud > 0 ==> (BaudAwareRtoMs(cfg) / 2 + 1) * cfg.baud > (MAX_CHUNK + 4) * 10 * 1000
  {
    if cfg.baud > 0 {
      var wire := (MAX_CHUNK + 4) * 10 * 1000;
      Covers(wire, cfg.baud, BaudAwareRtoMs(cfg) / 2);
    }
  }

  lemma Covers(wire: nat, baud: nat, ms: nat)
    requires baud > 0 && ms >= wire / baud
    ensures (ms + 1) * baud > wire
  {
    assert (wire / baud + 1) * baud > wire;
    assert (ms + 1) * baud >= (wire / baud + 1) * baud;
  }

  /** A base counts as stuck only once all that is pending could have drained. */
  lemma StuckCoversDrain(cfg: RetryConfig, pending: nat)
    ensures StuckThresholdMs(cfg, pending) >= cfg.syncAckTimeoutMs
    ensures cfg.baud > 0 && pending > 0 ==>
      (StuckThresholdMs(cfg, pending) + 1) * cfg.baud > pending * (MAX_CHUNK + MSG_HDR) * 10_000
  {
    if cfg.baud > 0 && pending > 0 {
      Covers(pending * (MAX_CHUNK + MSG_HDR) * 10_000, cfg.baud, StuckThresholdMs(cfg, pending));
    }
  }

  /** The window in which NAKs count for one loss covers twice the wire time of a resend there and an answer back. */
  lemma DedupCoversAnswer(cfg: RetryConfig)
    ensures DedupWindowMs(cfg) >= 16
    ensures cfg.baud > 0 ==> (DedupWindowMs(cfg) / 4 + 1) * cfg.baud > (MAX_CHUNK + 4) * 10 * 1000
  {
    if cfg.baud > 0 {
      Covers((MAX_CHUNK + 4) * 10 * 1000, cfg.baud, DedupWindowMs(cfg) / 4);
    }
  }

  /** The round trip is the wire time of 100 bits, to the nearest millisecond. */
  lemma RoundTripNearest(baud: uint32)
    requires baud > 0
    ensures 200_000 - baud as int <= 2 * baud * RoundTripMs(baud) <= 200_000 + baud
  {
    var ms := RoundTripMs(baud);
    assert 200_000 + baud == (2 * baud) * ms + (200_000 + baud) % (2 * baud);
  }
}
