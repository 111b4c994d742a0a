/**
  The retry ladder of one stuck base: RTO rounds, the storm-immune stuck clock, Keep rescues and the final
  reset, and the NAK-driven resends beside them. `Sender.SweepRetx` and `Sender.OnNak` are proved against
  these functions; here the ladder is shown to end.
 */
module Ladder {
  import opened Wire
  import opened SeqSpace
  import opened Timing
  import opened Arq

  const KEEP_CAP: nat := 3
  const APP_BACKLOG_CAP: nat := 5
  const NO_BASE: byte := 0xFF

  /** The link's retry fields, apart from the base's own slot. */
  datatype State = State(keep: nat, attempts: nat, backoffMs: uint32, lastRetxBase: byte,
                         lastOkTickMs: uint32, stuckSinceMs: uint32, stuckTracked: byte, appBacklog: nat)

  /** What one OK tick observes: the clock, the last inbound byte, the app buffer, the window and the TX ring. */
  datatype Tick = Tick(now: uint32, lastRxMs: uint32, appBacklog: bool, okTickMs: uint32, pending: nat, room: nat)

  datatype Verdict = Quiet | Round | Keep | Reset

  function Max(a: int, b: int): int { if a > b then a else b }

  function Min(a: int, b: int): int { if a < b then a else b }

  /** The storm-immune clock restarts on a new base, after a CPU stall, and for a few ticks of app backlog. */
  function Observe(cfg: RetryConfig, s: State, base: byte, t: Tick): State {
    var stallFloor := Max(t.okTickMs * 3 % 0x1_0000_0000, BaudAwareRtoMs(cfg));
    var stalled := s.lastOkTickMs != 0 && Elapsed(t.now, s.lastOkTickMs) > stallFloor;
    var rearm := stalled || (t.appBacklog && s.appBacklog < APP_BACKLOG_CAP);
    var backlog := if !t.appBacklog then 0 else if s.appBacklog < APP_BACKLOG_CAP then s.appBacklog + 1 else s.appBacklog;
    if base != s.stuckTracked then
      s.(lastOkTickMs := t.now, stuckTracked := base, stuckSinceMs := t.now, appBacklog := 0)
    else
      s.(lastOkTickMs := t.now, stuckSinceMs := if rearm then t.now else s.stuckSinceMs, appBacklog := backlog)
  }

  /** An exhausted base is dropped only when the peer is silent; `lastRxMs == 0` means never heard. */
  predicate PeerAlive(now: uint32, lastRxMs: uint32, rtoMs: uint32) {
    rtoMs > 0 && lastRxMs != 0 && Elapsed(now, lastRxMs) < rtoMs
  }

  function Decide(cfg: RetryConfig, s: State, slot: ArqSlot, t: Tick): Verdict {
    var rto := BaudAwareRtoMs(cfg);
    var threshold := Max(StuckThresholdMs(cfg, t.pending), (s.backoffMs + rto) % 0x1_0000_0000);
    var stuck := Elapsed(t.now, s.stuckSinceMs) >= threshold;
    var a := DecideArqSlot(Elapsed(t.now, slot.sentAtMs), slot.retxCount, rto, cfg.maxRetx);
    if a == Retx then Round
    else if a == Hold && !stuck then Quiet
    else if a == Drop || slot.retxCount >= 2 then
      if !PeerAlive(t.now, t.lastRxMs, cfg.syncAckTimeoutMs) || s.keep >= KEEP_CAP then Reset else Keep
    else Round
  }

  /** Frames one round puts on the wire: the burst cap, and no more than the window or the ring holds. */
  function BurstLen(cfg: RetryConfig, pending: nat, room: nat): nat {
    Min(ResendCap(pending, cfg.gbnResendBurstMax), room)
  }

  function Bumped(slot: ArqSlot, now: uint32): ArqSlot {
    slot.(retxCount := Saturate(slot.retxCount), sentAtMs := now)
  }

  /** The retry fields after a round on `base`. */
  function AfterRound(cfg: RetryConfig, s: State, base: byte, now: uint32): State {
    var s := if s.lastRetxBase != NO_BASE && s.lastRetxBase != base
             then s.(attempts := 0, backoffMs := 0, keep := 0) else s;
    s.(attempts := s.attempts + 1, lastRetxBase := base, stuckSinceMs := now,
       backoffMs := Backoff(s.attempts + 1, cfg.syncAckTimeoutMs, BackoffCapMs(cfg)))
  }

  /** What a verdict does to the retry fields and the base's slot. */
  function Applied(cfg: RetryConfig, s: State, base: byte, slot: ArqSlot, t: Tick, v: Verdict): (State, ArqSlot) {
    match v
    case Quiet => (s, slot)
    case Round =>
      (AfterRound(cfg, s, base, t.now), if BurstLen(cfg, t.pending, t.room) > 0 then Bumped(slot, t.now) else slot)
    case Keep =>
      (s.(keep := s.keep + 1, attempts := 0, backoffMs := 0, lastRetxBase := NO_BASE),
       slot.(retxCount := 0, sentAtMs := t.now))
    case Reset => (s.(keep := 0), slot)
  }

  /** One OK tick over a base that does not move: the new fields, the base's slot, and the verdict. */
  function LadderTick(cfg: RetryConfig, s: State, base: byte, slot: ArqSlot, t: Tick): (State, ArqSlot, Verdict) {
    var o := Observe(cfg, s, base, t);
    var v := Decide(cfg, o, slot, t);
    var (s', slot') := Applied(cfg, o, base, slot, t, v);
    (s', slot', v)
  }

  // ----- what the verdicts mean -----

  /** A byte came within the ACK timeout. */
  predicate Heard(cfg: RetryConfig, t: Tick) {
    t.lastRxMs != 0 && Elapsed(t.now, t.lastRxMs) < cfg.syncAckTimeoutMs
  }

  /** The base has been out for a whole RTO since it was last sent. */
  predicate Expired(cfg: RetryConfig, slot: ArqSlot, t: Tick) { Elapsed(t.now, slot.sentAtMs) >= BaudAwareRtoMs(cfg) }

  /** It has stayed put for the drain time of the window, and for the current backoff and one RTO. */
  predicate StuckFor(cfg: RetryConfig, s: State, t: Tick, since: uint32) {
    && Elapsed(t.now, since) >= StuckThresholdMs(cfg, t.pending)
    && Elapsed(t.now, since) >= (s.backoffMs + BaudAwareRtoMs(cfg)) % 0x1_0000_0000
  }

  /**
    A tick stays quiet exactly before the RTO while the base is not stuck. An expired base with rounds left, or a stuck
    one that has not failed twice, gets a round. One that is used up is given one more chance exactly when the peer was
    heard within the ACK timeout and three such chances have not been used up; else the link is reset.
   */
  lemma VerdictExact(cfg: RetryConfig, s: State, base: byte, slot: ArqSlot, t: Tick)
    ensures var v, since := LadderTick(cfg, s, base, slot, t).2, Observe(cfg, s, base, t).stuckSinceMs;
      var usedUp := if Expired(cfg, slot, t) then slot.retxCount >= cfg.maxRetx
                    else StuckFor(cfg, s, t, since) && slot.retxCount >= 2;
      && (v == Quiet <==> !Expired(cfg, slot, t) && !StuckFor(cfg, s, t, since))
      && (v == Round <==> (Expired(cfg, slot, t) || StuckFor(cfg, s, t, since)) && !usedUp)
      && (v == Keep <==> usedUp && Heard(cfg, t) && s.keep < 3)
      && (v == Reset <==> usedUp && !(Heard(cfg, t) && s.keep < 3))
  {
  }

  /** The stuck clock runs on over an unmoved base while the ticks keep coming and the app buffer drains. */
  lemma StuckClockRuns(cfg: RetryConfig, s: State, base: byte, t: Tick)
    requires base == s.stuckTracked && (!t.appBacklog || s.appBacklog >= 5)
    requires s.lastOkTickMs == 0 || Elapsed(t.now, s.lastOkTickMs) <= Max(t.okTickMs * 3 % 0x1_0000_0000, BaudAwareRtoMs(cfg))
    ensures Observe(cfg, s, base, t).stuckSinceMs == s.stuckSinceMs
  {
  }

  /** It restarts over a new base, behind a stall of the CPU, and for the first five ticks of app backlog. */
  lemma StuckClockRestarts(cfg: RetryConfig, s: State, base: byte, t: Tick)
    requires base != s.stuckTracked || (t.appBacklog && s.appBacklog < 5)
      || (s.lastOkTickMs != 0 && Elapsed(t.now, s.lastOkTickMs) > Max(t.okTickMs * 3 % 0x1_0000_0000, BaudAwareRtoMs(cfg)))
    ensures Observe(cfg, s, base, t).stuckSinceMs == t.now
  {
  }

  /** Every tick is remembered; backlog counts up to five, and a tick without it, or a new base, ends the count. */
  lemma ObservedFields(cfg: RetryConfig, s: State, base: byte, t: Tick)
    ensures var o := Observe(cfg, s, base, t);
      && o.lastOkTickMs == t.now && o.stuckTracked == base
      && o == s.(lastOkTickMs := o.lastOkTickMs, stuckTracked := o.stuckTracked, stuckSinceMs := o.stuckSinceMs,
                 appBacklog := o.appBacklog)
      && (!t.appBacklog || base != s.stuckTracked ==> o.appBacklog == 0)
      && (t.appBacklog && base == s.stuckTracked ==>
            o.appBacklog == if s.appBacklog < 5 then s.appBacklog + 1 else s.appBacklog)
  {
  }

  /** Each round over one base pauses twice as long as the one before it, up to the cap; a round over a new base starts afresh. */
  lemma RoundsLengthenPause(cfg: RetryConfig, s: State, base: byte, now: uint32, next: uint32)
    requires base != NO_BASE
    ensures var r := AfterRound(cfg, s, base, now);
      var again, twice := AfterRound(cfg, r, base, next), Min(2 * r.backoffMs, BackoffCapMs(cfg));
      && cfg.syncAckTimeoutMs <= r.backoffMs <= again.backoffMs == twice && again.attempts == r.attempts + 1
      && again.keep == r.keep && r.lastRetxBase == base && r.stuckSinceMs == now
      && (s.lastRetxBase == NO_BASE || s.lastRetxBase == base ==> r.attempts == s.attempts + 1 && r.keep == s.keep)
      && (s.lastRetxBase != NO_BASE && s.lastRetxBase != base ==>
            r.attempts == 1 && r.backoffMs == cfg.syncAckTimeoutMs && r.keep == 0)
  {
    var a := AfterRound(cfg, s, base, now).attempts;
    BackoffMonotone(a, cfg.syncAckTimeoutMs, BackoffCapMs(cfg));
    BackoffDoubles(a, cfg.syncAckTimeoutMs, BackoffCapMs(cfg));
  }

  /** A Keep gives the base a whole RTO with no rounds against it, keeps its NAK count, and starts the pauses afresh. */
  lemma KeepStartsAfresh(cfg: RetryConfig, s: State, base: byte, slot: ArqSlot, t: Tick, next: uint32)
    requires base != NO_BASE && LadderTick(cfg, s, base, slot, t).2 == Keep
    ensures var (s', slot', _) := LadderTick(cfg, s, base, slot, t);
      var r := AfterRound(cfg, s', base, next);
      && slot' == slot.(retxCount := 0, sentAtMs := t.now)
      && s'.keep == s.keep + 1 && r.keep == s.keep + 1 && r.attempts == 1 && r.backoffMs == cfg.syncAckTimeoutMs
  {
    hide Decide, BackoffCapMs;
    ObserveKeeps(cfg, s, base, t);
  }

  /** A round is as long as the burst cap, the window and the ring all allow, and no longer. */
  lemma BurstIsLongest(cfg: RetryConfig, pending: nat, room: nat, k: nat)
    requires cfg.gbnResendBurstMax >= 0
    ensures k <= BurstLen(cfg, pending, room) <==> k <= pending && k <= cfg.gbnResendBurstMax && k <= room
  {
  }

  // ----- NAKs for the base -----

  /** The stamp of the last resend, which later NAKs for the same loss are compared with. */
  datatype Resend = Resend(base: byte, atMs: uint32)

  /** Whether a NAK for the base draws a resend. */
  predicate NakResends(cfg: RetryConfig, base: byte, slot: ArqSlot, last: Resend, now: uint32) {
    && slot.nakCount <= cfg.maxRetx
    && !(last.base == base && Elapsed(now, last.atMs) < DedupWindowMs(cfg))
  }

  /** Every NAK for the base is counted; only one that draws a resend restarts the RTO clock. */
  function NakSlot(cfg: RetryConfig, base: byte, slot: ArqSlot, last: Resend, now: uint32): ArqSlot {
    var s := slot.(nakCount := Saturate(slot.nakCount));
    if NakResends(cfg, base, slot, last, now) then s.(sentAtMs := now) else s
  }

  // ----- the ranking -----

  function Rounds(cfg: RetryConfig): nat { Max(cfg.maxRetx, 2) }

  /** The Keep streak that counts for `base`; a streak left over from another base is forgotten. */
  function Streak(s: State, base: byte): nat {
    if s.lastRetxBase != NO_BASE && s.lastRetxBase != base then 0 else s.keep
  }

  function RoundsLeft(cfg: RetryConfig, slot: ArqSlot): nat {
    Max(Rounds(cfg) - slot.retxCount, 0)
  }

  predicate KeepBounded(s: State) { s.keep <= KEEP_CAP }

  lemma ObserveKeeps(cfg: RetryConfig, s: State, base: byte, t: Tick)
    ensures Observe(cfg, s, base, t).keep == s.keep
  {
  }

  /**
    With a burst cap of at least one and ring room, a tick that neither stays quiet nor resets lowers
    (KEEP_CAP - streak, rounds left) in lexicographic order.
   */
  lemma TickLowersRank(cfg: RetryConfig, s: State, base: byte, slot: ArqSlot, t: Tick)
    requires KeepBounded(s) && cfg.gbnResendBurstMax >= 1 && t.pending >= 1 && t.room >= 1 && base != NO_BASE
    ensures var (s', slot', v) := LadderTick(cfg, s, base, slot, t);
      && KeepBounded(s')
      && (v == Quiet ==> Streak(s', base) == Streak(s, base) && slot' == slot)
      && (v == Round ==> Streak(s', base) == Streak(s, base) && RoundsLeft(cfg, slot') == RoundsLeft(cfg, slot) - 1)
      && (v == Keep ==> Streak(s', base) > Streak(s, base) && RoundsLeft(cfg, slot') == Rounds(cfg))
  {
  }

  // ----- whole runs over one base -----

  datatype Event = OnTick(t: Tick) | OnNak(now: uint32)

  /** `over` once the ladder has reset the link; the other counters count what the run has done. */
  datatype Config = Config(s: State, slot: ArqSlot, last: Resend,
                           rounds: nat, active: nat, quiet: nat, nakResends: nat, over: bool)

  /** Runs a sequence of ticks and NAKs over one base, counting rounds, active ticks and NAK resends. */
  function Next(cfg: RetryConfig, base: byte, c: Config, e: Event): Config {
    if c.over then c
    else match e
      case OnNak(now) =>
        var c' := c.(slot := NakSlot(cfg, base, c.slot, c.last, now));
        if NakResends(cfg, base, c.slot, c.last, now)
        then c'.(last := Resend(base, now), nakResends := c.nakResends + 1) else c'
      case OnTick(t) =>
        var (s, slot, v) := LadderTick(cfg, c.s, base, c.slot, t);
        var c' := c.(s := s, slot := slot, over := v == Reset);
        match v
        case Quiet => c'.(quiet := c.quiet + 1)
        case Reset => c'
        case Keep => c'.(active := c.active + 1)
        case Round => c'.(active := c.active + 1, rounds := c.rounds + 1, last := Resend(base, t.now))
  }

  function RunFrom(cfg: RetryConfig, base: byte, c: Config, events: seq<Event>): Config
    decreases |events|
  {
    if events == [] then c else RunFrom(cfg, base, Next(cfg, base, c, events[0]), events[1..])
  }

  predicate HasRoom(events: seq<Event>) {
    forall i :: 0 <= i < |events| && events[i].OnTick? ==> events[i].t.pending >= 1 && events[i].t.room >= 1
  }

  /** A bound on the rounds still to come. */
  function RoundsBound(cfg: RetryConfig, base: byte, c: Config): int {
    (KEEP_CAP - Streak(c.s, base)) * Rounds(cfg) + RoundsLeft(cfg, c.slot)
  }

  /** A bound on the active ticks, rounds and Keeps together, still to come. */
  function TicksBound(cfg: RetryConfig, base: byte, c: Config): int {
    RoundsBound(cfg, base, c) + (KEEP_CAP - Streak(c.s, base))
  }

  lemma KeepPaysForRounds(cfg: RetryConfig, a: int, b: int)
    requires a > b
    ensures (KEEP_CAP - a) * Rounds(cfg) + Rounds(cfg) <= (KEEP_CAP - b) * Rounds(cfg)
  {
    var m := Rounds(cfg);
    assert (KEEP_CAP - a) * m + m == (KEEP_CAP - a + 1) * m;
    assert (KEEP_CAP - a + 1) * m <= (KEEP_CAP - b) * m;
  }

  lemma NextLowersBounds(cfg: RetryConfig, base: byte, c: Config, e: Event)
    requires KeepBounded(c.s) && cfg.gbnResendBurstMax >= 1 && base != NO_BASE
    requires e.OnTick? ==> e.t.pending >= 1 && e.t.room >= 1
    ensures var n := Next(cfg, base, c, e);
      && KeepBounded(n.s)
      && (!n.over ==> n.rounds + RoundsBound(cfg, base, n) <= c.rounds + RoundsBound(cfg, base, c))
      && (!n.over ==> n.active + TicksBound(cfg, base, n) <= c.active + TicksBound(cfg, base, c))
      && (n.over ==> n.rounds == c.rounds && n.active == c.active)
  {
    if !c.over && e.OnTick? {
      TickLowersRank(cfg, c.s, base, c.slot, e.t);
      var (s, slot, v) := LadderTick(cfg, c.s, base, c.slot, e.t);
      if v == Keep {
        KeepPaysForRounds(cfg, Streak(s, base), Streak(c.s, base));
      }
    }
  }

  /**
    However ticks and NAKs interleave over a base that does not move, the ladder makes at most
    4 * max(maxRetx, 2) RTO rounds and at most 3 Keeps besides, and then resets or stays quiet.
   */
  lemma {:induction false} LadderEnds(cfg: RetryConfig, base: byte, c: Config, events: seq<Event>)
    requires KeepBounded(c.s) && cfg.gbnResendBurstMax >= 1 && base != NO_BASE && HasRoom(events)
    ensures var r := RunFrom(cfg, base, c, events);
      && r.rounds <= c.rounds + RoundsBound(cfg, base, c) <= c.rounds + 4 * Rounds(cfg)
      && r.active <= c.active + TicksBound(cfg, base, c) <= c.active + 4 * Rounds(cfg) + KEEP_CAP
    decreases |events|
  {
    var m := Rounds(cfg);
    assert (KEEP_CAP - Streak(c.s, base)) * m <= KEEP_CAP * m;
    assert 0 <= (KEEP_CAP - Streak(c.s, base)) * m;
    if events != [] {
      NextLowersBounds(cfg, base, c, events[0]);
      var n := Next(cfg, base, c, events[0]);
      if n.over {
        OverStays(cfg, base, n, events[1..]);
      } else {
        LadderEnds(cfg, base, n, events[1..]);
      }
    }
  }

  function Ticks(events: seq<Event>): nat {
    if events == [] then 0 else (if events[0].OnTick? then 1 else 0) + Ticks(events[1..])
  }

  lemma {:induction false} TicksAreCounted(cfg: RetryConfig, base: byte, c: Config, events: seq<Event>)
    requires !RunFrom(cfg, base, c, events).over
    ensures var r := RunFrom(cfg, base, c, events); r.active + r.quiet == c.active + c.quiet + Ticks(events)
    decreases |events|
  {
    if events != [] {
      if Next(cfg, base, c, events[0]).over {
        OverStays(cfg, base, Next(cfg, base, c, events[0]), events[1..]);
      }
      TicksAreCounted(cfg, base, Next(cfg, base, c, events[0]), events[1..]);
    }
  }

  /** A run with more than 4 * max(maxRetx, 2) + 3 ticks that were not quiet has reset the link. */
  lemma LadderResets(cfg: RetryConfig, base: byte, c: Config, events: seq<Event>)
    requires KeepBounded(c.s) && cfg.gbnResendBurstMax >= 1 && base != NO_BASE && HasRoom(events)
    requires Ticks(events) > 4 * Rounds(cfg) + KEEP_CAP + (RunFrom(cfg, base, c, events).quiet - c.quiet)
    ensures RunFrom(cfg, base, c, events).over
  {
    LadderEnds(cfg, base, c, events);
    if !RunFrom(cfg, base, c, events).over {
      TicksAreCounted(cfg, base, c, events);
    }
  }

  lemma {:induction false} OverStays(cfg: RetryConfig, base: byte, c: Config, events: seq<Event>)
    requires c.over
    ensures RunFrom(cfg, base, c, events) == c
    decreases |events|
  {
    if events != [] {
      OverStays(cfg, base, c, events[1..]);
    }
  }

  /** Whatever NAKs arrive, they leave the RTO count of the base alone. */
  lemma NakKeepsRtoCount(cfg: RetryConfig, base: byte, slot: ArqSlot, last: Resend, now: uint32)
    ensures NakSlot(cfg, base, slot, last, now).retxCount == slot.retxCount
    ensures RoundsLeft(cfg, NakSlot(cfg, base, slot, last, now)) == RoundsLeft(cfg, slot)
  {
  }

  /** With maxRetx below 255 a base that does not move draws at most maxRetx + 1 NAK resends. */
  lemma {:induction false} NakResendsBounded(cfg: RetryConfig, base: byte, c: Config, events: seq<Event>)
    requires cfg.maxRetx < 255
    ensures RunFrom(cfg, base, c, events).nakResends <= c.nakResends + Max(cfg.maxRetx + 1 - c.slot.nakCount, 0)
    decreases |events|
  {
    if events != [] {
      NakResendsBounded(cfg, base, Next(cfg, base, c, events[0]), events[1..]);
    }
  }

  /** `k` NAKs spaced wider than the dedup window. */
  function SlowNaks(cfg: RetryConfig, from: nat, k: nat): seq<Event>
    decreases k
  {
    if k == 0 then [] else [OnNak(from % 0x1_0000_0000)] + SlowNaks(cfg, from + DedupWindowMs(cfg), k - 1)
  }

  /** With maxRetx == 255 the counter saturates below the gate and there is no bound: every spaced NAK is answered. */
  lemma {:induction false} NakResendsUnbounded(cfg: RetryConfig, base: byte, c: Config, from: nat, k: nat)
    requires cfg.maxRetx == 255 && !c.over
    requires DedupWindowMs(cfg) < 0x1_0000_0000
    requires c.last.base != base || Elapsed(from % 0x1_0000_0000, c.last.atMs) >= DedupWindowMs(cfg)
    ensures RunFrom(cfg, base, c, SlowNaks(cfg, from, k)).nakResends == c.nakResends + k
    decreases k
  {
    if k > 0 {
      var events := SlowNaks(cfg, from, k);
      var d := DedupWindowMs(cfg);
      assert events[0] == OnNak(from % 0x1_0000_0000) && events[1..] == SlowNaks(cfg, from + d, k - 1);
      var n := Next(cfg, base, c, events[0]);
      ElapsedStep(from, d);
      NakResendsUnbounded(cfg, base, n, from + d, k - 1);
    }
  }

  lemma ElapsedStep(from: nat, d: nat)
    requires d < 0x1_0000_0000
    ensures Elapsed((from + d) % 0x1_0000_0000, from % 0x1_0000_0000) == d
  {
  }

  // ----- who is given up, and who is not -----

  /** The Keeps of a run. */
  function Keeps(c: Config): int { c.active - c.rounds }

  predicate AllHeard(cfg: RetryConfig, events: seq<Event>) {
    forall i :: 0 <= i < |events| && events[i].OnTick? ==> Heard(cfg, events[i].t)
  }

  predicate NoneHeard(cfg: RetryConfig, events: seq<Event>) {
    forall i :: 0 <= i < |events| && events[i].OnTick? ==> !Heard(cfg, events[i].t)
  }

  lemma HeardNext(cfg: RetryConfig, base: byte, c: Config, e: Event)
    requires e.OnTick? ==> Heard(cfg, e.t)
    ensures var n := Next(cfg, base, c, e);
      && n.s.keep + Keeps(c) <= c.s.keep + Keeps(n)
      && (n.over && !c.over ==> c.s.keep >= 3 && Keeps(n) == Keeps(c))
  {
    hide Decide, Observe, AfterRound;
    if e.OnTick? {
      VerdictExact(cfg, c.s, base, c.slot, e.t);
      ObservedFields(cfg, c.s, base, e.t);
      RoundKeeps(cfg, Observe(cfg, c.s, base, e.t), base, e.t.now);
    }
  }

  lemma RoundKeeps(cfg: RetryConfig, s: State, base: byte, now: uint32)
    ensures AfterRound(cfg, s, base, now).keep <= s.keep
  {
  }

  /** While every tick finds that the peer was heard within the ACK timeout, the link is not reset before the third Keep. */
  lemma {:induction false} HeardPeerIsRescued(cfg: RetryConfig, base: byte, c: Config, events: seq<Event>)
    requires AllHeard(cfg, events) && !c.over && RunFrom(cfg, base, c, events).over
    ensures Keeps(RunFrom(cfg, base, c, events)) - Keeps(c) >= 3 - c.s.keep
    decreases |events|
  {
    hide Next;
    if events != [] {
      var n := Next(cfg, base, c, events[0]);
      HeardNext(cfg, base, c, events[0]);
      assert AllHeard(cfg, events[1..]) by {
        forall i | 0 <= i < |events[1..]| && events[1..][i].OnTick?
          ensures Heard(cfg, events[1..][i].t)
        {
          assert events[1..][i] == events[i + 1];
        }
      }
      if n.over {
        OverStays(cfg, base, n, events[1..]);
      } else {
        HeardPeerIsRescued(cfg, base, n, events[1..]);
      }
    }
  }

  lemma SilentNext(cfg: RetryConfig, base: byte, c: Config, e: Event)
    requires e.OnTick? ==> !Heard(cfg, e.t)
    ensures Keeps(Next(cfg, base, c, e)) == Keeps(c)
  {
    hide Decide, Observe, AfterRound;
    if e.OnTick? { VerdictExact(cfg, c.s, base, c.slot, e.t); }
  }

  /** While no tick finds that the peer was heard, it is never given another chance. */
  lemma {:induction false} SilentPeerIsNotRescued(cfg: RetryConfig, base: byte, c: Config, events: seq<Event>)
    requires NoneHeard(cfg, events)
    ensures Keeps(RunFrom(cfg, base, c, events)) == Keeps(c)
    decreases |events|
  {
    hide Next;
    if events != [] {
      SilentNext(cfg, base, c, events[0]);
      assert NoneHeard(cfg, events[1..]) by {
        forall i | 0 <= i < |events[1..]| && events[1..][i].OnTick?
          ensures !Heard(cfg, events[1..][i].t)
        {
          assert events[1..][i] == events[i + 1];
        }
      }
      SilentPeerIsNotRescued(cfg, base, Next(cfg, base, c, events[0]), events[1..]);
    }
  }

  /** No reset, and no Keep, without failed rounds: as many as maxRetx, or two, whichever is fewer. */
  lemma {:induction false} ResetTakesRounds(cfg: RetryConfig, base: byte, c: Config, events: seq<Event>)
    requires !c.over && RunFrom(cfg, base, c, events).over
    ensures c.slot.retxCount + (RunFrom(cfg, base, c, events).rounds - c.rounds) >= Min(cfg.maxRetx, 2)
    decreases |events|
  {
    hide Next;
    if events != [] {
      var n := Next(cfg, base, c, events[0]);
      RoundsRaiseCount(cfg, base, c, events[0]);
      if n.over {
        OverStays(cfg, base, n, events[1..]);
      } else {
        ResetTakesRounds(cfg, base, n, events[1..]);
      }
    }
  }

  lemma RoundsRaiseCount(cfg: RetryConfig, base: byte, c: Config, e: Event)
    ensures var n := Next(cfg, base, c, e);
      && n.slot.retxCount + c.rounds <= c.slot.retxCount + n.rounds
      && (n.over && !c.over ==> c.slot.retxCount >= Min(cfg.maxRetx, 2) && n.rounds == c.rounds)
  {
    hide Decide, Observe, AfterRound;
    if e.OnTick? { VerdictExact(cfg, c.s, base, c.slot, e.t); }
  }

  /** Behind a resend, further NAKs for the same base inside the dedup window draw none. */
  lemma NakDeduplicated(cfg: RetryConfig, base: byte, c: Config, first: uint32, later: uint32)
    requires !c.over && Elapsed(later, first) < DedupWindowMs(cfg)
    ensures var a := Next(cfg, base, c, OnNak(first));
      a.nakResends > c.nakResends ==>
        var b := Next(cfg, base, a, OnNak(later)); b.nakResends == a.nakResends && b.slot.sentAtMs == first
  {
  }

  /** A NAK for a base that has not used up its NAKs, outside the window of the last resend, is answered. */
  lemma FreshNakAnswered(cfg: RetryConfig, base: byte, c: Config, now: uint32)
    requires !c.over && c.slot.nakCount <= cfg.maxRetx
    requires c.last.base != base || Elapsed(now, c.last.atMs) >= DedupWindowMs(cfg)
    ensures Next(cfg, base, c, OnNak(now)).nakResends == c.nakResends + 1
  {
  }

  // ----- in real time -----

  /** An event at its time on a clock that does not wrap. */
  datatype Timed = Timed(at: nat, e: Event)

  /** The 32-bit millisecond clock at that time. */
  function Clock(at: nat): uint32 { at % 0x1_0000_0000 }

  predicate OnClock(t: Timed) {
    match t.e
    case OnTick(tick) => tick.now == Clock(t.at) && tick.pending >= 1 && tick.room >= 1
    case OnNak(now) => now == Clock(t.at)
  }

  function Plain(ts: seq<Timed>): seq<Event> {
    if ts == [] then [] else [ts[0].e] + Plain(ts[1..])
  }

  /** From `now` on, events come in order and no event lies more than `p` ms behind the last tick before it. */
  predicate Paced(ts: seq<Timed>, now: nat, lastTick: nat, p: nat)
    decreases |ts|
  {
    ts == [] ||
    (now <= ts[0].at <= lastTick + p && OnClock(ts[0])
     && Paced(ts[1..], ts[0].at, if ts[0].e.OnTick? then ts[0].at else lastTick, p))
  }

  /** How often the RTO clock of the base can still be restarted: by a round, by a Keep, or by a NAK resend. */
  function RestartsLeft(cfg: RetryConfig, base: byte, c: Config): int {
    TicksBound(cfg, base, c) + Max(cfg.maxRetx + 1 - c.slot.nakCount, 0)
  }

  lemma ElapsedIs(at: nat, since: nat)
    requires since <= at < since + 0x1_0000_0000
    ensures Elapsed(Clock(at), Clock(since)) == at - since
  {
  }

  /** An event that leaves the RTO clock of the base running: a NAK not answered, or a tick before the RTO. */
  predicate Runs(cfg: RetryConfig, base: byte, c: Config, t: Timed, since: nat) {
    && Next(cfg, base, c, t.e).slot.sentAtMs == c.slot.sentAtMs
    && (t.e.OnTick? ==> t.at < since + BaudAwareRtoMs(cfg))
  }

  /** An event that restarts it. */
  predicate Restarts(cfg: RetryConfig, base: byte, c: Config, t: Timed) {
    && Next(cfg, base, c, t.e).slot.sentAtMs == Clock(t.at)
    && RestartsLeft(cfg, base, Next(cfg, base, c, t.e)) < RestartsLeft(cfg, base, c)
  }

  lemma NakRunsOrRestarts(cfg: RetryConfig, base: byte, c: Config, t: Timed, since: nat)
    requires KeepBounded(c.s) && cfg.gbnResendBurstMax >= 1 && base != NO_BASE && cfg.maxRetx < 255
    requires !c.over && OnClock(t) && t.e.OnNak?
    ensures Runs(cfg, base, c, t, since) || Restarts(cfg, base, c, t)
    ensures RestartsLeft(cfg, base, Next(cfg, base, c, t.e)) <= RestartsLeft(cfg, base, c)
  {
    NakKeepsRtoCount(cfg, base, c.slot, c.last, t.e.now);
  }

  lemma TickRunsOrRestarts(cfg: RetryConfig, base: byte, c: Config, t: Timed, since: nat)
    requires KeepBounded(c.s) && cfg.gbnResendBurstMax >= 1 && base != NO_BASE
    requires !c.over && OnClock(t) && t.e.OnTick? && !Next(cfg, base, c, t.e).over
    requires c.slot.sentAtMs == Clock(since) && since <= t.at < since + 0x1_0000_0000
    ensures Runs(cfg, base, c, t, since) || Restarts(cfg, base, c, t)
    ensures RestartsLeft(cfg, base, Next(cfg, base, c, t.e)) <= RestartsLeft(cfg, base, c)
  {
    ElapsedIs(t.at, since);
    NextLowersBounds(cfg, base, c, t.e);
  }

  /** `n` more restarts, each at most `d` ms after the one before, and `d` ms behind the last. */
  function Horizon(since: nat, n: int, d: nat): int { since + (n + 1) * d }

  lemma HorizonHolds(since: nat, n: int, since': nat, n': int, d: nat)
    requires n' <= n && (since' == since || (n' < n && since' <= since + d))
    ensures Horizon(since', n', d) <= Horizon(since, n, d)
  {
    if n' < n {
      assert (n' + 1) * d + d <= (n + 1) * d by { assert (n' + 1) * d + d == (n' + 2) * d; }
    }
  }

  /** Until the ladder has reset the link, every event lies before the horizon. */
  lemma {:induction false} EventsBeforeHorizon(cfg: RetryConfig, base: byte, c: Config, ts: seq<Timed>, since: nat,
                                               now: nat, lastTick: nat, p: nat)
    requires KeepBounded(c.s) && cfg.gbnResendBurstMax >= 1 && base != NO_BASE && cfg.maxRetx < 255
    requires BaudAwareRtoMs(cfg) + p < 0x1_0000_0000 && Paced(ts, now, lastTick, p)
    requires c.slot.sentAtMs == Clock(since) && since <= now && lastTick <= since + BaudAwareRtoMs(cfg)
    requires !RunFrom(cfg, base, c, Plain(ts)).over
    ensures forall i :: 0 <= i < |ts| ==>
      ts[i].at <= Horizon(since, RestartsLeft(cfg, base, c), BaudAwareRtoMs(cfg) + p)
    decreases |ts|
  {
    hide Next, RestartsLeft, BaudAwareRtoMs, Horizon;
    if ts != [] {
      var t, d := ts[0], BaudAwareRtoMs(cfg) + p;
      var n := Next(cfg, base, c, t.e);
      assert Plain(ts)[0] == t.e && Plain(ts)[1..] == Plain(ts[1..]);
      OverSpreads(cfg, base, c, Plain(ts));
      if t.e.OnTick? { TickRunsOrRestarts(cfg, base, c, t, since); } else { NakRunsOrRestarts(cfg, base, c, t, since); }
      NextKeepsBound(cfg, base, c, t.e);
      var since' := if Runs(cfg, base, c, t, since) then since else t.at;
      HorizonHolds(since, RestartsLeft(cfg, base, c), since', RestartsLeft(cfg, base, n), d);
      EventsBeforeHorizon(cfg, base, n, ts[1..], since', t.at, if t.e.OnTick? then t.at else lastTick, p);
      HorizonAhead(cfg, base, c, since, d);
    }
  }

  lemma OverSpreads(cfg: RetryConfig, base: byte, c: Config, events: seq<Event>)
    requires events != [] && !RunFrom(cfg, base, c, events).over
    ensures !c.over && !Next(cfg, base, c, events[0]).over
  {
    if c.over { OverStays(cfg, base, c, events); }
    if Next(cfg, base, c, events[0]).over { OverStays(cfg, base, Next(cfg, base, c, events[0]), events[1..]); }
  }

  lemma NextKeepsBound(cfg: RetryConfig, base: byte, c: Config, e: Event)
    requires KeepBounded(c.s)
    ensures KeepBounded(Next(cfg, base, c, e).s)
  {
  }

  lemma HorizonAhead(cfg: RetryConfig, base: byte, c: Config, since: nat, d: nat)
    requires KeepBounded(c.s)
    ensures since + d <= Horizon(since, RestartsLeft(cfg, base, c), d)
  {
    assert (KEEP_CAP - Streak(c.s, base)) * Rounds(cfg) >= 0;
    assert (RestartsLeft(cfg, base, c) + 1) * d >= d;
  }

  /**
    A stuck base cannot hold the link for ever: with ticks at most `p` ms apart and maxRetx below 255, whatever NAKs
    arrive, the link has been reset 4 * max(maxRetx, 2) + maxRetx + 5 spans of one RTO and `p` ms after the base was
    last sent.
   */
  lemma LadderResetsInTime(cfg: RetryConfig, base: byte, c: Config, ts: seq<Timed>, since: nat, p: nat)
    requires KeepBounded(c.s) && cfg.gbnResendBurstMax >= 1 && base != NO_BASE && cfg.maxRetx < 255
    requires BaudAwareRtoMs(cfg) + p < 0x1_0000_0000 && Paced(ts, since, since, p) && c.slot.sentAtMs == Clock(since)
    requires ts != [] && ts[|ts| - 1].at >
      since + (4 * Max(cfg.maxRetx, 2) + cfg.maxRetx + 5) * (BaudAwareRtoMs(cfg) + p)
    ensures RunFrom(cfg, base, c, Plain(ts)).over
  {
    var d := BaudAwareRtoMs(cfg) + p;
    LadderEnds(cfg, base, c, []);
    assert RestartsLeft(cfg, base, c) <= 4 * Rounds(cfg) + KEEP_CAP + cfg.maxRetx + 1;
    HorizonHolds(since, 4 * Rounds(cfg) + KEEP_CAP + cfg.maxRetx + 1, since, RestartsLeft(cfg, base, c), d);
    if !RunFrom(cfg, base, c, Plain(ts)).over {
      EventsBeforeHorizon(cfg, base, c, ts, since, since, since, p);
    }
  }
}
