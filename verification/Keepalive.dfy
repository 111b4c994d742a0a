/**
  The health verdicts of a locked link and the idle keepalive measured against them: two nodes with nothing to
  send, real time passing, frames that take a bounded time to arrive. Neither node ever drops the link.
 */
module Keepalive {
  import opened Wire
  import opened Timing

  const M32: int := 0x1_0000_0000

  // ----- the verdict -----

  datatype HealthState = HealthState(
    rejFirstMs: uint32, rejLastMs: uint32, lastRxMs: uint32, lastTxMs: uint32, pending: nat, ackRxMs: uint32,
    peerStalledMs: int, frameErrs: nat, poolFull: bool, sync: bool, isMaster: bool, campBudgetMs: uint32,
    gbnActive: bool, gbnBudgetOpen: bool)

  datatype HealthAction = Keep | DropTxStall | DropAsymIdle | DropIdle | DropPoolExhaust | DropDeadLink
    | DropSilentPeer | DropPeerStalled | DropPeerReset

  /** Two RTOs, at least 300 ms. */
  function FastIdleRxMs(rtoMs: uint32): int { if 2 * rtoMs > 300 then 2 * rtoMs else 300 }

  /** The watchdogs, in the order they are asked. */
  function DecideHealth(h: HealthState, now: uint32, idle: nat, deadPeerMs: nat, rtoMs: uint32): HealthAction {
    var rxAge, txAge := Elapsed(now, h.lastRxMs), Elapsed(now, h.lastTxMs);
    var heard := h.lastRxMs != 0;
    var rxSilent := heard && rxAge > FastIdleRxMs(rtoMs) && rxAge > 2 * rtoMs;
    if h.rejFirstMs != 0 && Elapsed(now, h.rejFirstMs) > idle && Elapsed(now, h.rejLastMs) <= idle then DropTxStall
    else if h.pending > 0 && rxAge > idle && txAge > idle then DropDeadLink
    else if heard && rxAge > deadPeerMs then DropSilentPeer
    else if heard && !h.sync && !h.isMaster && h.campBudgetMs > 0 && rxAge > 2 * h.campBudgetMs then DropPeerReset
    else if h.sync then Keep
    else if rxSilent && txAge < 1000 && h.pending > 0 then
      (if h.gbnActive && h.gbnBudgetOpen then Keep else DropAsymIdle)
    else if heard && rxAge > idle && txAge > idle && (h.pending > 0 || h.frameErrs > 0) then DropIdle
    else if h.poolFull && h.pending > 0 && rxSilent then DropPoolExhaust
    else if h.pending > 0 && h.ackRxMs != 0 && h.peerStalledMs > 0 && Elapsed(now, h.ackRxMs) > h.peerStalledMs then
      DropPeerStalled
    else Keep
  }

  /**
    No drop without silence: whatever is pending, stuck or full, a peer heard within the fast-idle floor and inside the
    longer horizons is kept, unless sends have been rejected for a whole idle timeout and still are.
   */
  lemma HeardPeerIsKept(h: HealthState, now: uint32, idle: nat, deadPeerMs: nat, rtoMs: uint32)
    requires h.ackRxMs == h.lastRxMs
    ensures var rxAge := Elapsed(now, h.lastRxMs);
      && (rxAge <= FastIdleRxMs(rtoMs) && rxAge <= idle && rxAge <= deadPeerMs && rxAge <= h.peerStalledMs
          && rxAge <= 2 * h.campBudgetMs ==>
            (DecideHealth(h, now, idle, deadPeerMs, rtoMs) == Keep <==>
             !(h.rejFirstMs != 0 && Elapsed(now, h.rejFirstMs) > idle && Elapsed(now, h.rejLastMs) <= idle)))
  {
  }

  /** The evidence the watchdogs look for, in clock readings alone. */
  datatype Evidence = Evidence(rejecting: bool, quietBoth: bool, silent: bool, peerReset: bool, asymmetric: bool,
                               idleDamaged: bool, poolStuck: bool, stalled: bool)

  function EvidenceOf(h: HealthState, now: uint32, idle: nat, deadPeerMs: nat, rtoMs: uint32): Evidence {
    var rxAge, txAge, heard := Elapsed(now, h.lastRxMs), Elapsed(now, h.lastTxMs), h.lastRxMs != 0;
    Evidence(
      h.rejFirstMs != 0 && Elapsed(now, h.rejFirstMs) > idle && Elapsed(now, h.rejLastMs) <= idle,
      h.pending > 0 && rxAge > idle && txAge > idle,
      heard && rxAge > deadPeerMs,
      heard && !h.isMaster && !h.sync && h.campBudgetMs > 0 && rxAge > 2 * h.campBudgetMs,
      heard && h.pending > 0 && rxAge > 300 && rxAge > 2 * rtoMs && txAge < 1000,
      heard && h.frameErrs > 0 && rxAge > idle && txAge > idle,
      heard && h.poolFull && h.pending > 0 && rxAge > 300 && rxAge > 2 * rtoMs,
      h.pending > 0 && h.ackRxMs != 0 && h.peerStalledMs > 0 && Elapsed(now, h.ackRxMs) > h.peerStalledMs)
  }

  /**
    A link is dropped exactly on evidence: standing rejects, a peer silent beyond its horizon, or, in ASYNC mode, one that
    leaves pending chunks or damage behind, unless the retry ladder is still at work on them.
   */
  lemma DropsOnEvidence(h: HealthState, now: uint32, idle: nat, deadPeerMs: nat, rtoMs: uint32)
    ensures var e := EvidenceOf(h, now, idle, deadPeerMs, rtoMs);
      var certain := e.rejecting || e.quietBoth || e.silent || e.peerReset;
      var waived := e.asymmetric && h.gbnActive && h.gbnBudgetOpen;
      DecideHealth(h, now, idle, deadPeerMs, rtoMs) != Keep <==>
        certain || (!h.sync && !waived && (e.asymmetric || e.idleDamaged || e.poolStuck || e.stalled))
  {
  }

  /** And for the first piece of evidence in this order. */
  lemma VerdictNamesEvidence(h: HealthState, now: uint32, idle: nat, deadPeerMs: nat, rtoMs: uint32)
    ensures var e, v := EvidenceOf(h, now, idle, deadPeerMs, rtoMs), DecideHealth(h, now, idle, deadPeerMs, rtoMs);
      && (v == DropTxStall <==> e.rejecting)
      && (v == DropDeadLink <==> !e.rejecting && e.quietBoth)
      && (v == DropSilentPeer <==> !e.rejecting && !e.quietBoth && e.silent)
      && (v == DropPeerReset <==> !e.rejecting && !e.quietBoth && !e.silent && e.peerReset)
      && (v == DropAsymIdle ==> e.asymmetric && !(h.gbnActive && h.gbnBudgetOpen))
      && (v == DropIdle ==> e.idleDamaged && !e.asymmetric)
      && (v == DropPoolExhaust ==> e.poolStuck && !e.asymmetric && !e.idleDamaged)
      && (v == DropPeerStalled ==> e.stalled && !e.asymmetric && !e.idleDamaged && !e.poolStuck)
  {
  }

  // ----- the cadence -----

  /** The OK tick in ASYNC mode: a third of the idle timeout, clipped to the ACK timeout. */
  function OkTickMs(idleTimeoutMs: nat, syncAckTimeoutMs: nat): nat {
    var k := if idleTimeoutMs / 3 < 50 then 50 else idleTimeoutMs / 3;
    var k := if k < syncAckTimeoutMs then syncAckTimeoutMs else k;
    var k := if k > syncAckTimeoutMs then syncAckTimeoutMs else k;
    if k < 50 then 50 else k
  }

  // ----- two idle nodes -----

  /** `tick` bounds the time between two OK ticks of a node, `delay` the time a frame is under way. */
  datatype Params = Params(idle: nat, tick: nat, delay: nat, camp: uint32, rto: uint32, errsA: nat, errsB: nat) {
    /** The longest silence a node can hear: half the idle timeout, one tick and one crossing. */
    function Silence(): nat { idle / 2 + tick + delay }

    predicate Valid() {
      && Silence() < M32 && camp > 0
      && Silence() <= 3 * idle && Silence() <= 2 * camp
      && ((errsA == 0 && errsB == 0) || idle / 2 + tick <= idle)
    }
  }

  datatype End = End(lastTx: nat, lastRx: nat, lastTick: nat)

  datatype Flight = Flight(ping: bool, sentAt: nat)

  /** `prevA` is history: when the last frame delivered to B left A; `prevB` likewise. */
  datatype Pair = Pair(now: nat, a: End, b: End, toA: seq<Flight>, toB: seq<Flight>, prevA: nat, prevB: nat,
                       dropped: bool)

  datatype Event = Wait(ms: nat) | TickA | TickB | DeliverA | DeliverB

  /** Time may pass until a timer or a frame is due. */
  predicate MayWait(p: Params, s: Pair, ms: nat) {
    && s.now + ms <= s.a.lastTick + p.tick && s.now + ms <= s.b.lastTick + p.tick
    && (forall i :: 0 <= i < |s.toA| ==> s.now + ms <= s.toA[i].sentAt + p.delay)
    && (forall i :: 0 <= i < |s.toB| ==> s.now + ms <= s.toB[i].sentAt + p.delay)
  }

  /** What the health machine sees of a node with an empty pipeline; the clocks are 32 bits wide. */
  function Idle(e: End, isMaster: bool, errs: nat, camp: uint32): HealthState {
    HealthState(0, 0, e.lastRx % M32, e.lastTx % M32, 0, e.lastRx % M32, 2000, errs, false, false, isMaster, camp,
                false, true)
  }

  /** One OK tick: the health verdict, then a PING when nothing has been sent for half the idle timeout. */
  function Tick(p: Params, now: nat, e: End, isMaster: bool, errs: nat): (End, bool, bool) {
    var v := DecideHealth(Idle(e, isMaster, errs, p.camp), now % M32, p.idle, 3 * p.idle, p.rto);
    var due := Elapsed(now % M32, e.lastTx % M32) > p.idle / 2;
    (e.(lastTick := now, lastTx := if due then now else e.lastTx), due, v != Keep)
  }

  /** A runs as master, B as slave. */
  function TickOfA(p: Params, s: Pair): Pair {
    var (a, ping, drop) := Tick(p, s.now, s.a, true, p.errsA);
    s.(a := a, toB := if ping then s.toB + [Flight(true, s.now)] else s.toB, dropped := s.dropped || drop)
  }

  function TickOfB(p: Params, s: Pair): Pair {
    var (b, ping, drop) := Tick(p, s.now, s.b, false, p.errsB);
    s.(b := b, toA := if ping then s.toA + [Flight(true, s.now)] else s.toA, dropped := s.dropped || drop)
  }

  /** A valid frame refreshes the receive clock; a PING is answered at once. */
  function ArriveAtA(s: Pair): Pair
    requires s.toA != []
  {
    var f := s.toA[0];
    var r := s.(toA := s.toA[1..], prevB := f.sentAt, a := s.a.(lastRx := s.now));
    if f.ping then r.(a := r.a.(lastTx := s.now), toB := s.toB + [Flight(false, s.now)]) else r
  }

  function ArriveAtB(s: Pair): Pair
    requires s.toB != []
  {
    var f := s.toB[0];
    var r := s.(toB := s.toB[1..], prevA := f.sentAt, b := s.b.(lastRx := s.now));
    if f.ping then r.(b := r.b.(lastTx := s.now), toA := s.toA + [Flight(false, s.now)]) else r
  }

  function Step(p: Params, s: Pair, e: Event): Pair {
    match e
    case Wait(ms) => if MayWait(p, s, ms) then s.(now := s.now + ms) else s
    case TickA => TickOfA(p, s)
    case TickB => TickOfB(p, s)
    case DeliverA => if s.toA != [] then ArriveAtA(s) else s
    case DeliverB => if s.toB != [] then ArriveAtB(s) else s
  }

  function Run(p: Params, s: Pair, events: seq<Event>): Pair
    decreases |events|
  {
    if events == [] then s else Run(p, Step(p, s, events[0]), events[1..])
  }

  /** Both ends have just locked. */
  function Locked(t: nat): Pair {
    Pair(t, End(t, t, t), End(t, t, t), [], [], t, t, false)
  }

  // ----- the invariant -----

  /**
    What is under way, in order: from the last frame delivered, sent at `prev`, no two sends lie further apart than
    half the idle timeout and a tick, and none is overdue.
   */
  ghost predicate Chain(p: Params, now: nat, prev: nat, wire: seq<Flight>)
    decreases |wire|
  {
    wire == [] ||
    (var sent := wire[0].sentAt;
     && prev <= sent <= now <= sent + p.delay && sent <= prev + p.idle / 2 + p.tick
     && Chain(p, now, sent, wire[1..]))
  }

  ghost function LastSent(prev: nat, wire: seq<Flight>): nat {
    if wire == [] then prev else wire[|wire| - 1].sentAt
  }

  /** One direction: the chain reaches from what was last heard to what was last sent, and the sender keeps ticking. */
  ghost predicate Flows(p: Params, now: nat, prev: nat, wire: seq<Flight>, lastTx: nat, lastTick: nat, lastRx: nat) {
    && prev <= lastRx <= now
    && Chain(p, now, prev, wire) && lastTx == LastSent(prev, wire) <= now
    && lastTick <= now <= lastTick + p.tick
    && lastTick <= lastTx + p.idle / 2
  }

  ghost predicate Alive(p: Params, s: Pair) {
    && !s.dropped
    && Flows(p, s.now, s.prevA, s.toB, s.a.lastTx, s.a.lastTick, s.b.lastRx)
    && Flows(p, s.now, s.prevB, s.toA, s.b.lastTx, s.b.lastTick, s.a.lastRx)
  }

  lemma {:induction false} ChainSnoc(p: Params, now: nat, prev: nat, wire: seq<Flight>, ping: bool)
    requires Chain(p, now, prev, wire) && LastSent(prev, wire) <= now <= LastSent(prev, wire) + p.idle / 2 + p.tick
    ensures Chain(p, now, prev, wire + [Flight(ping, now)])
    decreases |wire|
  {
    var longer := wire + [Flight(ping, now)];
    if wire == [] {
      assert Chain(p, now, now, longer[1..]);
    } else {
      assert longer[1..] == wire[1..] + [Flight(ping, now)];
      ChainSnoc(p, now, wire[0].sentAt, wire[1..], ping);
    }
  }

  lemma {:induction false} ChainWaits(p: Params, now: nat, prev: nat, wire: seq<Flight>, ms: nat)
    requires Chain(p, now, prev, wire)
    requires forall i :: 0 <= i < |wire| ==> now + ms <= wire[i].sentAt + p.delay
    ensures Chain(p, now + ms, prev, wire)
    decreases |wire|
  {
    if wire != [] {
      ChainWaits(p, now, wire[0].sentAt, wire[1..], ms);
    }
  }

  /** A send now extends the chain. */
  lemma SendFlows(p: Params, now: nat, prev: nat, wire: seq<Flight>, lastTx: nat, lastTick: nat, lastRx: nat, ping: bool)
    requires Flows(p, now, prev, wire, lastTx, lastTick, lastRx)
    ensures Flows(p, now, prev, wire + [Flight(ping, now)], now, lastTick, lastRx)
    ensures Flows(p, now, prev, wire + [Flight(ping, now)], now, now, lastRx)
  {
    ChainSnoc(p, now, prev, wire, ping);
  }

  /** A tick that finds a recent send needs none. */
  lemma QuietTickFlows(p: Params, now: nat, prev: nat, wire: seq<Flight>, lastTx: nat, lastTick: nat, lastRx: nat)
    requires Flows(p, now, prev, wire, lastTx, lastTick, lastRx) && now <= lastTx + p.idle / 2
    ensures Flows(p, now, prev, wire, lastTx, now, lastRx)
  {
  }

  lemma DeliverFlows(p: Params, now: nat, prev: nat, wire: seq<Flight>, lastTx: nat, lastTick: nat, lastRx: nat)
    requires Flows(p, now, prev, wire, lastTx, lastTick, lastRx) && wire != []
    ensures Flows(p, now, wire[0].sentAt, wire[1..], lastTx, lastTick, now)
  {
  }

  lemma WaitFlows(p: Params, now: nat, prev: nat, wire: seq<Flight>, lastTx: nat, lastTick: nat, lastRx: nat, ms: nat)
    requires Flows(p, now, prev, wire, lastTx, lastTick, lastRx) && now + ms <= lastTick + p.tick
    requires forall i :: 0 <= i < |wire| ==> now + ms <= wire[i].sentAt + p.delay
    ensures Flows(p, now + ms, prev, wire, lastTx, lastTick, lastRx)
  {
    ChainWaits(p, now, prev, wire, ms);
  }

  lemma ElapsedIs(now: nat, since: nat)
    requires since <= now < since + M32
    ensures Elapsed(now % M32, since % M32) == now - since
  {
    var k, j := now / M32, since / M32;
    assert now == k * M32 + now % M32 && since == j * M32 + since % M32;
    assert k == j || k == j + 1;
  }

  /** No node hears nothing for longer than the bound. */
  lemma SilenceBounded(p: Params, now: nat, prev: nat, wire: seq<Flight>, lastTx: nat, lastTick: nat, lastRx: nat)
    requires Flows(p, now, prev, wire, lastTx, lastTick, lastRx)
    ensures now <= lastRx + p.Silence() && now <= lastTx + p.idle / 2 + p.tick
  {
  }

  /** So the verdict is Keep, for master and slave alike. */
  lemma IdleIsKept(p: Params, now: nat, e: End, isMaster: bool, errs: nat)
    requires p.Valid() && errs <= p.errsA + p.errsB
    requires e.lastRx <= now <= e.lastRx + p.Silence() && e.lastTx <= now <= e.lastTx + p.idle / 2 + p.tick
    ensures !Tick(p, now, e, isMaster, errs).2
    ensures Tick(p, now, e, isMaster, errs).1 <==> now - e.lastTx > p.idle / 2
  {
    ElapsedIs(now, e.lastRx);
    ElapsedIs(now, e.lastTx);
  }

  /** A tick of one node: it keeps the link, and its outgoing direction flows on. */
  lemma TickFlows(p: Params, now: nat, e: End, isMaster: bool, errs: nat, prev: nat, wire: seq<Flight>, peerRx: nat)
    requires p.Valid() && errs <= p.errsA + p.errsB
    requires Flows(p, now, prev, wire, e.lastTx, e.lastTick, peerRx)
    requires e.lastRx <= now <= e.lastRx + p.Silence()
    ensures var (r, ping, drop) := Tick(p, now, e, isMaster, errs);
      && !drop && r.lastRx == e.lastRx
      && Flows(p, now, prev, if ping then wire + [Flight(true, now)] else wire, r.lastTx, r.lastTick, peerRx)
  {
    SilenceBounded(p, now, prev, wire, e.lastTx, e.lastTick, peerRx);
    IdleIsKept(p, now, e, isMaster, errs);
    SendFlows(p, now, prev, wire, e.lastTx, e.lastTick, peerRx, true);
    if now <= e.lastTx + p.idle / 2 {
      QuietTickFlows(p, now, prev, wire, e.lastTx, e.lastTick, peerRx);
    }
  }

  lemma TickAKeepsAlive(p: Params, s: Pair)
    requires p.Valid() && Alive(p, s)
    ensures Alive(p, TickOfA(p, s))
  {
    SilenceBounded(p, s.now, s.prevB, s.toA, s.b.lastTx, s.b.lastTick, s.a.lastRx);
    TickFlows(p, s.now, s.a, true, p.errsA, s.prevA, s.toB, s.b.lastRx);
  }

  lemma TickBKeepsAlive(p: Params, s: Pair)
    requires p.Valid() && Alive(p, s)
    ensures Alive(p, TickOfB(p, s))
  {
    SilenceBounded(p, s.now, s.prevA, s.toB, s.a.lastTx, s.a.lastTick, s.b.lastRx);
    TickFlows(p, s.now, s.b, false, p.errsB, s.prevB, s.toA, s.a.lastRx);
  }

  lemma DeliverAKeepsAlive(p: Params, s: Pair)
    requires Alive(p, s) && s.toA != []
    ensures Alive(p, ArriveAtA(s))
  {
    DeliverFlows(p, s.now, s.prevB, s.toA, s.b.lastTx, s.b.lastTick, s.a.lastRx);
    SendFlows(p, s.now, s.prevA, s.toB, s.a.lastTx, s.a.lastTick, s.b.lastRx, false);
  }

  lemma DeliverBKeepsAlive(p: Params, s: Pair)
    requires Alive(p, s) && s.toB != []
    ensures Alive(p, ArriveAtB(s))
  {
    DeliverFlows(p, s.now, s.prevA, s.toB, s.a.lastTx, s.a.lastTick, s.b.lastRx);
    SendFlows(p, s.now, s.prevB, s.toA, s.b.lastTx, s.b.lastTick, s.a.lastRx, false);
  }

  lemma WaitKeepsAlive(p: Params, s: Pair, ms: nat)
    requires Alive(p, s) && MayWait(p, s, ms)
    ensures Alive(p, s.(now := s.now + ms))
  {
    WaitFlows(p, s.now, s.prevA, s.toB, s.a.lastTx, s.a.lastTick, s.b.lastRx, ms);
    WaitFlows(p, s.now, s.prevB, s.toA, s.b.lastTx, s.b.lastTick, s.a.lastRx, ms);
  }

  lemma StepKeepsAlive(p: Params, s: Pair, e: Event)
    requires p.Valid() && Alive(p, s)
    ensures Alive(p, Step(p, s, e))
  {
    hide Alive;
    match e {
      case Wait(ms) => if MayWait(p, s, ms) { WaitKeepsAlive(p, s, ms); }
      case TickA => TickAKeepsAlive(p, s);
      case TickB => TickBKeepsAlive(p, s);
      case DeliverA => if s.toA != [] { DeliverAKeepsAlive(p, s); }
      case DeliverB => if s.toB != [] { DeliverBKeepsAlive(p, s); }
    }
  }

  lemma {:induction false} RunKeepsAlive(p: Params, s: Pair, events: seq<Event>)
    requires p.Valid() && Alive(p, s)
    ensures Alive(p, Run(p, s, events))
    decreases |events|
  {
    hide Alive, Step;
    if events != [] {
      StepKeepsAlive(p, s, events[0]);
      RunKeepsAlive(p, Step(p, s, events[0]), events[1..]);
    }
  }

  /**
    An idle pair is never torn down: as long as no frame is lost and half the idle timeout, one tick and one crossing
    stay within the silent-peer and peer-reset horizons, no OK tick of either node, in any run however long and at
    any clock reading, reaches a drop verdict.
   */
  lemma IdlePairNeverDrops(p: Params, t: nat, events: seq<Event>)
    requires p.Valid()
    ensures !Run(p, Locked(t), events).dropped
  {
    RunKeepsAlive(p, Locked(t), events);
  }

  /**
    A peer gone silent is given up in time: the first OK tick more than three idle timeouts after the last frame drops the
    link, and on a slave already the first one more than two camp budgets after it.
   */
  lemma SilentPeerIsDropped(p: Params, now: nat, e: End, isMaster: bool, errs: nat)
    requires e.lastRx < now < e.lastRx + M32 && e.lastRx % M32 != 0
    requires now - e.lastRx > 3 * p.idle || (!isMaster && p.camp > 0 && now - e.lastRx > 2 * p.camp)
    ensures Tick(p, now, e, isMaster, errs).2
  {
    ElapsedIs(now, e.lastRx);
    DropsOnEvidence(Idle(e, isMaster, errs, p.camp), now % M32, p.idle, 3 * p.idle, p.rto);
  }

  /** The defaults satisfy it for crossings of up to 2.5 seconds, and no longer. */
  lemma DefaultsFit(delay: nat, rto: uint32, errsA: nat, errsB: nat)
    ensures OkTickMs(10000, 500) == 500 && CampBudgetMs(500) == 4000
    ensures Params(10000, OkTickMs(10000, 500), delay, CampBudgetMs(500), rto, errsA, errsB).Valid() <==> delay <= 2500
  {
  }

  /** In ASYNC mode the clipping leaves the ACK timeout itself, never less than 50 ms. */
  lemma OkTickIsAckTimeout(idleTimeoutMs: nat, syncAckTimeoutMs: nat)
    ensures OkTickMs(idleTimeoutMs, syncAckTimeoutMs) == if syncAckTimeoutMs < 50 then 50 else syncAckTimeoutMs
  {
  }
}
