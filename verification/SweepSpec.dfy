/**
  The baud sweep: how two nodes that know only a list of bauds find one they share. A node walks three phases,
  driven by the peer's control frames and by its own one-shot timer. `Step` is the specification the class
  `SweepNode` is proved against; the invariant is kept by every event in every order.
 */
module SweepSpec {
  import opened Wire
  import opened Timing

  const PING_CMD: byte := 0x22
  const PONG_CMD: byte := 0x33
  const REQ_CMD: byte := 0x11
  const LOCK_CMD: byte := 0x44
  const MAX_BAUDS: int := 16
  const NO_PREFERRED_BAUD: byte := 0xFF
  const PHASE3_ACKS_NEEDED: int := 2
  const RESWEEP_PREF_MAX_ATTEMPTS: int := 2
  const RESWEEP_PREF_ATTEMPT_CEILING: int := 24
  const SUB_TICK: int := 250

  datatype Phase = NONE | PHASE1 | PHASE2 | PHASE3

  datatype Config = Config(isMaster: bool, bauds: seq<uint32>, delayMs: int, idleTimeoutMs: int, okTickMs: int,
                           syncAckTimeoutMs: uint32) {
    /** Between 1 and 16 bauds, none of them zero; the timers are armed for at least a millisecond. */
    predicate Valid() {
      && 1 <= |bauds| <= MAX_BAUDS && (forall i :: 0 <= i < |bauds| ==> bauds[i] > 0)
      && delayMs >= 1 && idleTimeoutMs >= 0 && okTickMs >= 1
    }

    function N(): nat { |bauds| }
  }

  /** The fields of the source's `LinkSweep`. */
  datatype Sweep = Sweep(phase: Phase, phase3Baud: int, phase3Acks: nat, phase2ElapsedMs: nat)

  /** The camp at a preserved baud: pending, ticks used up, and the wall-clock deadline. */
  datatype Camp = Camp(pending: bool, attempts: nat, deadlineMs: uint32)

  /** The baud register, what the one-shot timer was last armed for, and the payloads sent in the current event. */
  datatype Hw = Hw(uart: uint32, timerMs: int, sent: seq<byte>)

  datatype Node = Node(ok: bool, spdI: int, sw: Sweep, camp: Camp, hw: Hw, pongs: nat, preferredBaud: byte,
                       wasEverOk: bool, scores: seq<nat>)

  datatype Event =
    | Frame(payload: byte)
    | Timer(now: uint32, seed: uint32)
    | Reset(preserve: bool, healthWatchdog: bool, veto: bool, at: uint32)
    | Kickoff

  // ----- durations -----

  /** `(int)(250 * count * 1.1f)`, exact for up to 16 bauds. */
  function MasterDwell(c: Config): int { 275 * c.N() }

  /** The P3 timer: one round trip per ACK still missing and one to spare, at least 200 ms. */
  function P3TimerMs(c: Config, i: int, acks: int): (ms: int)
    requires c.Valid() && 0 <= i < c.N()
    ensures ms >= 200
  {
    var rt := RoundTripMs(c.bauds[i]);
    var floor := if rt < 50 then 50 else rt;
    var t3 := floor * (PHASE3_ACKS_NEEDED - acks + 1) + 100;
    if t3 < 200 then 200 else t3
  }

  /** The P1 dwell, spread by a sixth either way. */
  function JitterPhase1Dwell(baseMs: int, seed: uint32): (ms: int)
    ensures ms >= 1
  {
    if baseMs <= 1 then 1
    else
      var span := if baseMs / 6 < 1 then 1 else baseMs / 6;
      var r := (seed * 2654435761 + 0x9E3779B9) % 0x1_0000_0000;
      var d := baseMs + (r % (2 * span + 1) - span);
      if d < 1 then 1 else d
  }

  /** The two's-complement reading of a 32-bit difference. */
  function Signed(x: uint32): int { if x < 0x8000_0000 then x else x - 0x1_0000_0000 }

  // ----- phase entries -----

  function Send(s: Node, payload: byte): Node { s.(hw := s.hw.(sent := s.hw.sent + [payload])) }

  function Arm(s: Node, ms: int): Node { s.(hw := s.hw.(timerMs := ms)) }

  function At(s: Node, phase: Phase): Node { s.(sw := s.sw.(phase := phase)) }

  function Tune(c: Config, s: Node, i: int): Node
    requires c.Valid() && 0 <= i < c.N()
  {
    s.(spdI := i, hw := s.hw.(uart := c.bauds[i]))
  }

  function EnterPhase1(c: Config, s: Node): Node
    requires c.Valid()
  {
    var r := Tune(c, At(s, PHASE1).(pongs := 0), c.N() - 1);
    if c.isMaster then Arm(Send(r, PING_CMD), c.delayMs) else Arm(r, MasterDwell(c) + 200)
  }

  function EnterPhase2(c: Config, s: Node): Node
    requires c.Valid()
  {
    var r := Tune(c, At(s, PHASE2), 0);
    if c.isMaster then Arm(Send(r.(sw := r.sw.(phase2ElapsedMs := 0)), PING_CMD), SUB_TICK) else Arm(r, SUB_TICK)
  }

  function EnterPhase3(c: Config, s: Node, chosen: int): Node
    requires c.Valid() && 0 <= chosen < c.N()
  {
    var r := s.(sw := s.sw.(phase := PHASE3, phase3Baud := chosen, phase3Acks := 0), hw := s.hw.(uart := c.bauds[chosen]));
    var t3 := P3TimerMs(c, chosen, 0);
    if c.isMaster then Arm(Send(r, PING_CMD), t3) else Arm(r, t3 * (RESWEEP_PREF_MAX_ATTEMPTS + 1))
  }

  function ResetSweep(s: Node): Node {
    s.(sw := Sweep(NONE, -1, 0, 0))
  }

  function LockOk(c: Config, s: Node, i: int): Node
    requires c.Valid() && 0 <= i < c.N()
  {
    if s.ok then s
    else
      Arm(Tune(c, s, i), c.okTickMs).(preferredBaud := i, ok := true, wasEverOk := true,
        camp := s.camp.(pending := false, attempts := 0))
  }

  /** Leave the sweep and lock at `i`, telling the peer. */
  function LockTogether(c: Config, s: Node, i: int): Node
    requires c.Valid() && 0 <= i < c.N()
  {
    LockOk(c, Send(Tune(c, ResetSweep(s), i), LOCK_CMD + i), i)
  }

  // ----- frames -----

  /** The fastest baud that has scored a PING, or the fastest of all. */
  function BestSpd(scores: seq<nat>, i: nat): (best: int)
    requires i <= |scores|
    ensures 0 <= best && (|scores| > 0 ==> best < |scores|)
    decreases |scores| - i
  {
    if i == |scores| then 0 else if scores[i] > 0 then i else BestSpd(scores, i + 1)
  }

  function MasterPong(c: Config, s: Node): Node
    requires c.Valid() && Sound(c, s) && !s.ok && c.isMaster
  {
    var s := s.(pongs := s.pongs + 1);
    match s.sw.phase
    case PHASE1 => EnterPhase2(c, s)
    case PHASE2 => EnterPhase3(c, s, s.spdI)
    case PHASE3 =>
      var s := s.(sw := s.sw.(phase3Acks := s.sw.phase3Acks + 1));
      if s.sw.phase3Acks >= PHASE3_ACKS_NEEDED then LockTogether(c, s, s.sw.phase3Baud)
      else Arm(Send(s, PING_CMD), P3TimerMs(c, s.sw.phase3Baud, s.sw.phase3Acks))
    case NONE => s
  }

  function SlavePing(c: Config, s: Node): Node
    requires c.Valid() && Sound(c, s) && !s.ok && !c.isMaster
  {
    var s := s.(scores := s.scores[s.spdI := s.scores[s.spdI] + 1]);
    match s.sw.phase
    case PHASE1 => EnterPhase2(c, Send(s, PONG_CMD))
    case PHASE2 => Send(EnterPhase3(c, s, s.spdI), PONG_CMD)
    case PHASE3 =>
      var s := s.(sw := s.sw.(phase3Acks := s.sw.phase3Acks + 1));
      if s.sw.phase3Acks >= PHASE3_ACKS_NEEDED then LockTogether(c, s, s.sw.phase3Baud) else Send(s, PONG_CMD)
    case NONE => s
  }

  function HandleSwp(c: Config, s: Node, payload: byte): Node
    requires c.Valid() && Sound(c, s) && !s.ok
  {
    if LOCK_CMD <= payload < LOCK_CMD + c.N() then
      LockOk(c, ResetSweep(Tune(c, s, payload - LOCK_CMD)), payload - LOCK_CMD)
    else if !c.isMaster && payload == REQ_CMD then
      var best := BestSpd(s.scores, 0);
      LockOk(c, Send(s, best), best)
    else if c.isMaster && payload == PONG_CMD then MasterPong(c, s)
    else if !c.isMaster && payload == PING_CMD then SlavePing(c, s)
    else s
  }

  // ----- the timer -----

  /** The fallback lock at the slowest baud, or back to P1 when no PONG was seen this round. */
  function Fallback(c: Config, s: Node, announce: bool): Node
    requires c.Valid()
  {
    if s.pongs < 1 then EnterPhase1(c, Tune(c, s, c.N() - 1))
    else
      var r := Tune(c, ResetSweep(s), c.N() - 1);
      LockOk(c, if announce then Send(r, LOCK_CMD + c.N() - 1) else r, c.N() - 1)
  }

  function MasterPhase2Timer(c: Config, s: Node): Node
    requires c.Valid() && Sound(c, s) && !s.ok
  {
    var s := s.(sw := s.sw.(phase2ElapsedMs := s.sw.phase2ElapsedMs + SUB_TICK));
    if s.sw.phase2ElapsedMs < MasterDwell(c) then Arm(Send(s, PING_CMD), SUB_TICK)
    else
      var s, next := s.(sw := s.sw.(phase2ElapsedMs := 0)), s.spdI + 1;
      if next + 1 >= c.N() then Fallback(c, s.(spdI := next), true)
      else Arm(Send(Tune(c, s, next), PING_CMD), SUB_TICK)
  }

  predicate CampOpen(s: Node, now: uint32) {
    && s.camp.deadlineMs != 0 && Signed(Elapsed(s.camp.deadlineMs, now)) > 0
    && s.camp.attempts < RESWEEP_PREF_ATTEMPT_CEILING
  }

  /** The camp at the preserved baud: one more ping while it is open, else the walk from the slowest. */
  function MasterCampTimer(c: Config, s: Node, now: uint32, seed: uint32): Node
    requires c.Valid() && Sound(c, s) && !s.ok && s.sw.phase == PHASE3
  {
    if CampOpen(s, now) then
      Arm(Send(s.(camp := s.camp.(attempts := s.camp.attempts + 1)), PING_CMD),
          P3TimerMs(c, s.sw.phase3Baud, s.sw.phase3Acks))
    else
      var s := ResetSweep(s.(camp := Camp(false, 0, 0)));
      Arm(Send(At(Tune(c, s, c.N() - 1), PHASE1), PING_CMD), JitterPhase1Dwell(c.delayMs, seed))
  }

  function MasterPhase3Timer(c: Config, s: Node, now: uint32, seed: uint32): Node
    requires c.Valid() && Sound(c, s) && !s.ok && s.sw.phase == PHASE3
  {
    if s.camp.pending then MasterCampTimer(c, s, now, seed)
    else
      var next := s.sw.phase3Baud + 1;
      if next >= c.N() then Fallback(c, s, false)
      else Arm(Send(Tune(c, ResetSweep(s), next), PING_CMD), MasterDwell(c))
  }

  function MasterTimer(c: Config, s: Node, now: uint32, seed: uint32): Node
    requires c.Valid() && Sound(c, s) && !s.ok
  {
    match s.sw.phase
    case PHASE1 => Arm(Send(s, PING_CMD), JitterPhase1Dwell(c.delayMs, seed))
    case PHASE2 => MasterPhase2Timer(c, s)
    case PHASE3 => MasterPhase3Timer(c, s, now, seed)
    case NONE => EnterPhase1(c, s)
  }

  /** How long the slave camps before its next look, clipped to what is left of the camp. */
  function RearmMs(c: Config, s: Node, now: uint32): int {
    var rearm := if c.idleTimeoutMs / 2 < 1000 then 1000 else c.idleTimeoutMs / 2;
    var remaining := Signed(Elapsed(s.camp.deadlineMs, now));
    if s.camp.deadlineMs != 0 && remaining > 0 then
      var budget := if remaining - 100 < 250 then 250 else remaining - 100;
      if rearm > budget then budget else rearm
    else rearm
  }

  function SlaveTimer(c: Config, s: Node, now: uint32): Node
    requires c.Valid() && Sound(c, s) && !s.ok
  {
    match s.sw.phase
    case PHASE1 => Arm(s, MasterDwell(c) + 200)
    case PHASE2 =>
      if s.spdI <= 0 then Arm(if c.N() <= 1 then s else Tune(c, s, c.N() - 1), SUB_TICK)
      else Arm(Tune(c, s, s.spdI - 1), SUB_TICK)
    case _ =>
      var elapsed := s.camp.deadlineMs != 0 && Signed(Elapsed(now, s.camp.deadlineMs)) >= 0;
      if !elapsed && s.camp.attempts < RESWEEP_PREF_MAX_ATTEMPTS then
        Arm(s, RearmMs(c, s, now)).(camp := s.camp.(attempts := s.camp.attempts + 1))
      else
        EnterPhase1(c, s.(camp := Camp(false, 0, 0), preferredBaud := NO_PREFERRED_BAUD))
  }

  // ----- session control -----

  /** What every reset clears; only a master, or a slave whose health watchdog fired, may keep its preferred baud. */
  function Cleared(c: Config, s: Node, preserve: bool, healthWatchdog: bool): Node {
    var forget := !preserve || (!c.isMaster && !healthWatchdog);
    s.(ok := false, pongs := 0, scores := Zeros(c.N()), spdI := 0,
       preferredBaud := if forget then NO_PREFERRED_BAUD else s.preferredBaud,
       camp := s.camp.(pending := s.camp.pending && !forget))
  }

  /** `reset_unlocked`, its sweep half; `veto` stands for the storm and mismatch breakers. */
  function ResetLink(c: Config, s: Node, preserve: bool, healthWatchdog: bool, veto: bool, now: uint32): Node
    requires c.Valid()
  {
    var s := Cleared(c, s, preserve, healthWatchdog);
    if preserve && s.wasEverOk && s.preferredBaud != NO_PREFERRED_BAUD && s.preferredBaud < c.N() && !veto then
      EnterPhase3(c, s.(spdI := s.preferredBaud as int), s.preferredBaud)
        .(camp := Camp(true, 0, (now + CampBudgetMs(c.syncAckTimeoutMs)) % 0x1_0000_0000))
    else
      EnterPhase1(c, s).(camp := Camp(false, 0, 0))
  }

  function Zeros(n: nat): seq<nat> { seq(n, _ => 0) }

  /** A locked link ignores it; a slave still sweeping goes back to P1 without closing its camp. */
  function KickOff(c: Config, s: Node): Node
    requires c.Valid()
  {
    if s.ok then s
    else if c.isMaster then ResetLink(c, s, false, false, false, 0)
    else Arm(Tune(c, At(s, PHASE1).(scores := Zeros(c.N())), c.N() - 1), MasterDwell(c) + 200)
  }

  /** What an event finds: nothing sent yet, and the one-shot timer spent if it is what fired. */
  function Begun(s: Node, e: Event): Node {
    s.(hw := s.hw.(sent := [], timerMs := if e.Timer? then 0 else s.hw.timerMs))
  }

  /** One event; frames and timer ticks of a locked link belong to its OK state, which only re-arms the timer. */
  function Step(c: Config, s: Node, e: Event): Node
    requires c.Valid() && Good(c, s)
  {
    var s := Begun(s, e);
    match e
    case Frame(payload) => if s.ok then s else HandleSwp(c, s, payload)
    case Timer(now, seed) =>
      if s.ok then Arm(s, c.okTickMs)
      else if c.isMaster then MasterTimer(c, s, now, seed) else SlaveTimer(c, s, now)
    case Reset(preserve, healthWatchdog, veto, at) => ResetLink(c, s, preserve, healthWatchdog, veto, at)
    case Kickoff => KickOff(c, s)
  }

  // ----- the invariant -----

  /** The invariant but for the timer, which is spent while the handler of its own tick runs. */
  predicate Sound(c: Config, s: Node) {
    && 0 <= s.spdI < c.N() && s.hw.uart == c.bauds[s.spdI] && |s.scores| == c.N()
    && (!s.ok && s.sw.phase == PHASE3 ==> s.sw.phase3Baud == s.spdI && s.sw.phase3Acks < PHASE3_ACKS_NEEDED)
    && (c.isMaster && s.camp.pending ==> !s.ok && s.sw.phase == PHASE3)
    && (!c.isMaster && !s.ok ==> s.sw.phase != NONE)
    && (c.isMaster && !s.ok && (s.sw.phase == PHASE2 || (s.sw.phase == PHASE3 && !s.camp.pending)) ==> s.pongs >= 1)
  }

  predicate Good(c: Config, s: Node) {
    Sound(c, s) && s.hw.timerMs >= 1
  }

  /** A node as `begin` leaves it, before its first kickoff. */
  function Booted(c: Config): Node
    requires c.Valid()
  {
    Node(false, 0, Sweep(NONE, -1, 0, 0), Camp(false, 0, 0), Hw(0, 0, []), 0, NO_PREFERRED_BAUD, false, Zeros(c.N()))
  }

  lemma FirstKickoffGood(c: Config)
    requires c.Valid()
    ensures Good(c, KickOff(c, Booted(c)))
  {
  }

  lemma PongKeepsGood(c: Config, s: Node)
    requires c.Valid() && Good(c, s) && !s.ok && c.isMaster
    ensures Good(c, MasterPong(c, s))
  {
  }

  lemma PingKeepsGood(c: Config, s: Node)
    requires c.Valid() && Good(c, s) && !s.ok && !c.isMaster
    ensures Good(c, SlavePing(c, s))
  {
  }

  lemma FrameKeepsGood(c: Config, s: Node, payload: byte)
    requires c.Valid() && Good(c, s) && !s.ok
    ensures Good(c, HandleSwp(c, s, payload))
  {
    hide MasterPong, SlavePing;
    if c.isMaster { PongKeepsGood(c, s); } else { PingKeepsGood(c, s); }
  }

  /** Whatever the phase, the handler of a timer tick arms the timer again. */
  lemma MasterTimerArms(c: Config, s: Node, now: uint32, seed: uint32)
    requires c.Valid() && Sound(c, s) && !s.ok && c.isMaster
    ensures Good(c, MasterTimer(c, s, now, seed))
  {
  }

  lemma SlaveTimerArms(c: Config, s: Node, now: uint32)
    requires c.Valid() && Sound(c, s) && !s.ok && !c.isMaster
    ensures Good(c, SlaveTimer(c, s, now))
  {
  }

  lemma ResetGood(c: Config, s: Node, preserve: bool, healthWatchdog: bool, veto: bool, now: uint32)
    requires c.Valid()
    ensures Good(c, ResetLink(c, s, preserve, healthWatchdog, veto, now))
  {
  }

  lemma KickOffKeepsGood(c: Config, s: Node)
    requires c.Valid() && Good(c, s)
    ensures Good(c, KickOff(c, s))
  {
    hide ResetLink;
    ResetGood(c, s, false, false, false, 0);
  }

  lemma StepKeepsGood(c: Config, s: Node, e: Event)
    requires c.Valid() && Good(c, s)
    ensures Good(c, Step(c, s, e))
  {
    hide HandleSwp, MasterTimer, SlaveTimer, ResetLink, KickOff;
    var s := Begun(s, e);
    match e
    case Frame(payload) => if !s.ok { FrameKeepsGood(c, s, payload); }
    case Timer(now, seed) =>
      if !s.ok {
        if c.isMaster { MasterTimerArms(c, s, now, seed); } else { SlaveTimerArms(c, s, now); }
      }
    case Reset(preserve, healthWatchdog, veto, at) => ResetGood(c, s, preserve, healthWatchdog, veto, at);
    case Kickoff => KickOffKeepsGood(c, s);
  }

  function Run(c: Config, s: Node, events: seq<Event>): Node
    requires c.Valid() && Good(c, s)
    decreases |events|
  {
    if events == [] then s
    else
      StepKeepsGood(c, s, events[0]);
      Run(c, Step(c, s, events[0]), events[1..])
  }

  lemma {:induction false} RunKeepsGood(c: Config, s: Node, events: seq<Event>)
    requires c.Valid() && Good(c, s)
    ensures Good(c, Run(c, s, events))
    decreases |events|
  {
    if events != [] {
      StepKeepsGood(c, s, events[0]);
      RunKeepsGood(c, Step(c, s, events[0]), events[1..]);
    }
  }

  /**
    In every run from the first kickoff: the UART is tuned to the current baud of the list, a timer is armed, the
    P3 baud is the current one, a master's camp lives only in P3, and a master past P1 outside a camp has had its PONG.
   */
  lemma SweepNeverLost(c: Config, events: seq<Event>)
    requires c.Valid()
    ensures Good(c, KickOff(c, Booted(c)))
    ensures var s := Run(c, KickOff(c, Booted(c)), events);
      && 0 <= s.spdI < |c.bauds| && s.hw.uart == c.bauds[s.spdI] && s.hw.timerMs >= 1
      && (!s.ok && s.sw.phase == PHASE3 ==> s.sw.phase3Baud == s.spdI)
      && (c.isMaster && s.camp.pending ==> !s.ok && s.sw.phase == PHASE3)
      && (c.isMaster && !s.ok && (s.sw.phase == PHASE2 || (s.sw.phase == PHASE3 && !s.camp.pending)) ==> s.pongs >= 1)
  {
    FirstKickoffGood(c);
    RunKeepsGood(c, KickOff(c, Booted(c)), events);
  }

  /** No lock lacks evidence: a master that locks on its own timer has heard the peer this round. */
  lemma FallbackHasEvidence(c: Config, s: Node, now: uint32, seed: uint32)
    requires c.Valid() && Good(c, s) && !s.ok && c.isMaster
    ensures Step(c, s, Timer(now, seed)).ok ==> s.pongs >= 1
    ensures !Step(c, s, Timer(now, seed)).ok && s.sw.phase in {PHASE2, PHASE3}
      ==> Step(c, s, Timer(now, seed)).sw.phase == s.sw.phase || s.camp.pending || Step(c, s, Timer(now, seed)).sw.phase == NONE
  {
  }

  /** A pending camp belongs to P3. */
  predicate CampOk(s: Node) {
    s.camp.pending ==> !s.ok && s.sw.phase == PHASE3
  }

  /** Only one event can leave a camp pending outside P3: a kickoff of a slave that is camping. */
  lemma OnlyKickoffStrandsCamp(c: Config, s: Node, e: Event)
    requires c.Valid() && Good(c, s) && CampOk(s)
    ensures CampOk(Step(c, s, e)) <==> !(e.Kickoff? && !c.isMaster && s.camp.pending)
  {
  }

  lemma RunCons(c: Config, s: Node, e: Event, rest: seq<Event>)
    requires c.Valid() && Good(c, s)
    ensures Good(c, Step(c, s, e)) && Run(c, s, [e] + rest) == Run(c, Step(c, s, e), rest)
  {
    hide Step, Good;
    StepKeepsGood(c, s, e);
    assert ([e] + rest)[1..] == rest;
  }

  /** It does happen: a slave that lost its link to the health watchdog and is kicked off again before it relocks. */
  lemma KickoffStrandsCamp(c: Config, t: uint32)
    requires c.Valid() && !c.isMaster
    ensures Good(c, KickOff(c, Booted(c)))
    ensures var s := Run(c, KickOff(c, Booted(c)), [Frame(LOCK_CMD), Reset(true, true, false, t), Kickoff]);
      && Good(c, s) && !CampOk(s) && s.sw.phase == PHASE1
      && s.camp == Camp(true, 0, (t + CampBudgetMs(c.syncAckTimeoutMs)) % 0x1_0000_0000)
  {
    FirstKickoffGood(c);
    var s := KickOff(c, Booted(c));
    var s1 := Step(c, s, Frame(LOCK_CMD));
    RunCons(c, s, Frame(LOCK_CMD), [Reset(true, true, false, t), Kickoff]);
    RunCons(c, s1, Reset(true, true, false, t), [Kickoff]);
    RunCons(c, Step(c, s1, Reset(true, true, false, t)), Kickoff, []);
    assert [Frame(LOCK_CMD)] + ([Reset(true, true, false, t)] + ([Kickoff] + []))
      == [Frame(LOCK_CMD), Reset(true, true, false, t), Kickoff];
  }

  /** A slave in P1 that hears two PINGs is in P3, with whatever camp it brought along. */
  lemma TwoPings(c: Config, s: Node)
    requires c.Valid() && Good(c, s) && !c.isMaster && !s.ok && s.sw.phase == PHASE1
    ensures var r := Run(c, s, [Frame(PING_CMD), Frame(PING_CMD)]);
      Good(c, r) && !r.ok && r.sw.phase == PHASE3 && r.camp == s.camp
  {
    var s1 := Step(c, s, Frame(PING_CMD));
    RunCons(c, s, Frame(PING_CMD), [Frame(PING_CMD)]);
    RunCons(c, s1, Frame(PING_CMD), []);
    assert [Frame(PING_CMD)] + ([Frame(PING_CMD)] + []) == [Frame(PING_CMD), Frame(PING_CMD)];
  }

  /**
    A stranded camp does not break the invariant, but it outlives the kickoff: two PINGs later the slave is in P3 with
    the looks already used up and the old deadline still set, and its next tick keeps it there only while both allow.
    A slave without one always stays for a second look.
   */
  lemma StrandedDeadlineCutsCamp(c: Config, s: Node, now: uint32, seed: uint32)
    requires c.Valid() && Good(c, s) && !c.isMaster && !s.ok && s.sw.phase == PHASE3 && s.camp.pending
    ensures Good(c, Step(c, s, Kickoff)) && Good(c, KickOff(c, Booted(c)))
    ensures var r := Run(c, Step(c, s, Kickoff), [Frame(PING_CMD), Frame(PING_CMD)]);
      && Good(c, r) && r.sw.phase == PHASE3
      && (Step(c, r, Timer(now, seed)).sw.phase == PHASE3
        <==> s.camp.attempts < RESWEEP_PREF_MAX_ATTEMPTS
             && (s.camp.deadlineMs == 0 || Signed(Elapsed(now, s.camp.deadlineMs)) < 0))
    ensures var f := Run(c, KickOff(c, Booted(c)), [Frame(PING_CMD), Frame(PING_CMD)]);
      && Good(c, f) && f.sw.phase == PHASE3 && Step(c, f, Timer(now, seed)).sw.phase == PHASE3
  {
    FirstKickoffGood(c);
    StepKeepsGood(c, s, Kickoff);
    TwoPings(c, Step(c, s, Kickoff));
    TwoPings(c, KickOff(c, Booted(c)));
  }

  // ----- the rendezvous -----

  /** The node after `n` timer ticks with nothing received. */
  function Ticks(c: Config, s: Node, n: nat): (r: Node)
    requires c.Valid() && Good(c, s)
    ensures Good(c, r)
  {
    if n == 0 then s
    else
      StepKeepsGood(c, Ticks(c, s, n - 1), Timer(0, 0));
      Step(c, Ticks(c, s, n - 1), Timer(0, 0))
  }

  /** A sub-tick inside the dwell pings again and changes nothing else. */
  lemma MasterTick(c: Config, s: Node)
    requires c.Valid() && Good(c, s) && c.isMaster && !s.ok && s.sw.phase == PHASE2
    requires s.sw.phase2ElapsedMs + SUB_TICK < MasterDwell(c)
    ensures Step(c, s, Timer(0, 0)) ==
      s.(hw := s.hw.(sent := [PING_CMD], timerMs := SUB_TICK),
         sw := s.sw.(phase2ElapsedMs := s.sw.phase2ElapsedMs + SUB_TICK))
  {
  }

  /** Inside one dwell the master pings at every sub-tick and stays where it is. */
  lemma {:induction false} MasterDwells(c: Config, s: Node, k: nat)
    requires c.Valid() && Good(c, s) && c.isMaster && !s.ok && s.sw.phase == PHASE2 && s.sw.phase2ElapsedMs == 0
    requires SUB_TICK * k < MasterDwell(c)
    ensures var r := Ticks(c, s, k);
      && !r.ok && r.sw.phase == PHASE2 && r.spdI == s.spdI && r.hw.uart == s.hw.uart && r.sw.phase2ElapsedMs == SUB_TICK * k
      && (k > 0 ==> r.hw.sent == [PING_CMD] && r.hw.timerMs == SUB_TICK)
  {
    if k > 0 {
      MasterDwells(c, s, k - 1);
      MasterTick(c, Ticks(c, s, k - 1));
    }
  }

  /** One sub-tick takes the slave one baud down the list, or round to the slowest. */
  lemma SlaveTick(c: Config, s: Node)
    requires c.Valid() && Good(c, s) && !c.isMaster && !s.ok && s.sw.phase == PHASE2
    ensures var r := Step(c, s, Timer(0, 0));
      && !r.ok && r.sw.phase == PHASE2 && r.hw.timerMs == SUB_TICK
      && r.spdI == if s.spdI > 0 then s.spdI - 1 else c.N() - 1
  {
  }

  /** In a whole round the slave visits the list downwards from where it is, wrapping once. */
  lemma {:induction false} SlaveWalks(c: Config, s: Node, j: nat)
    requires c.Valid() && Good(c, s) && !c.isMaster && !s.ok && s.sw.phase == PHASE2 && j <= c.N()
    ensures var r := Ticks(c, s, j);
      && !r.ok && r.sw.phase == PHASE2 && (j > 0 ==> r.hw.timerMs == SUB_TICK)
      && r.spdI == (if j <= s.spdI then s.spdI - j else s.spdI - j + c.N()) && r.hw.uart == c.bauds[r.spdI]
  {
    if j > 0 {
      SlaveWalks(c, s, j - 1);
      SlaveTick(c, Ticks(c, s, j - 1));
    }
  }

  /** How often a timer that next fires after `phase` and then every sub-tick has fired by time `t`. */
  function Firings(phase: nat, t: nat): nat {
    if t < phase then 0 else (t - phase) / SUB_TICK + 1
  }

  /** Master and slave face each other at one baud, the master's PING just out. */
  predicate Meeting(c: Config, m: Node, d: Config, s: Node, phase: Phase, acks: nat) {
    && c.Valid() && Good(c, m) && c.isMaster && !m.ok && m.sw.phase == phase && m.hw.sent == [PING_CMD]
    && d.Valid() && Good(d, s) && !d.isMaster && !s.ok && s.sw.phase == phase && s.hw.uart == m.hw.uart
    && c.bauds == d.bauds && (phase == PHASE3 ==> m.sw.phase3Acks == s.sw.phase3Acks == acks)
  }

  /** The master's `k`-th ping of a dwell goes out while the slave listens at the master's baud. */
  ghost predicate MeetsAt(c: Config, m: Node, d: Config, s: Node, offset: nat, k: nat)
    requires c.Valid() && Good(c, m) && d.Valid() && Good(d, s)
  {
    && SUB_TICK * k < MasterDwell(c) && Ticks(c, m, k).hw.uart == m.hw.uart
    && Meeting(c, Ticks(c, m, k), d, Ticks(d, s, Firings(offset, SUB_TICK * k)), PHASE2, 0)
  }

  lemma MeetsAfter(c: Config, m: Node, d: Config, s: Node, k: nat)
    requires c.Valid() && Good(c, m) && c.isMaster && !m.ok && m.sw.phase == PHASE2 && m.sw.phase2ElapsedMs == 0
    requires d.Valid() && Good(d, s) && !d.isMaster && !s.ok && s.sw.phase == PHASE2
    requires c.bauds == d.bauds && 1 <= k <= c.N()
    requires m.spdI == if k <= s.spdI then s.spdI - k else s.spdI - k + c.N()
    ensures SUB_TICK * k < MasterDwell(c) && Ticks(c, m, k).hw.uart == m.hw.uart
    ensures Meeting(c, Ticks(c, m, k), d, Ticks(d, s, k), PHASE2, 0)
  {
    MasterDwells(c, m, k);
    SlaveWalks(d, s, k);
    assert m.hw.uart == d.bauds[m.spdI];
    assert Ticks(d, s, k).spdI == m.spdI;
  }

  /**
    Rendezvous: at whatever baud the master dwells in P2, wherever the slave is in its walk and however its timer is
    offset, one of the pings of that dwell goes out while the slave listens at that very baud.
   */
  lemma PingMeetsSlave(c: Config, m: Node, d: Config, s: Node, offset: nat)
    requires c.Valid() && Good(c, m) && c.isMaster && !m.ok && m.sw.phase == PHASE2 && m.sw.phase2ElapsedMs == 0
    requires d.Valid() && Good(d, s) && !d.isMaster && !s.ok && s.sw.phase == PHASE2
    requires c.bauds == d.bauds && 1 <= offset <= SUB_TICK
    ensures exists k: nat :: k <= c.N() && MeetsAt(c, m, d, s, offset, k)
  {
    var k := if s.spdI > m.spdI then s.spdI - m.spdI else s.spdI - m.spdI + c.N();
    MeetsAfter(c, m, d, s, k);
    assert Firings(offset, SUB_TICK * k) == k;
    assert MeetsAt(c, m, d, s, offset, k);
  }

  /** The master's `k`-th ping, the 0-th being one out as the dwell starts, reaches the slave. */
  ghost predicate Hears(c: Config, m: Node, d: Config, s: Node, offset: nat, k: nat)
    requires c.Valid() && Good(c, m) && d.Valid() && Good(d, s)
  {
    && Ticks(c, m, k).hw.sent == [PING_CMD]
    && Ticks(c, m, k).hw.uart == Ticks(d, s, Firings(offset, SUB_TICK * k)).hw.uart
  }

  /** In the first round of the dwell whatever the slave hears it hears at the master's baud, both in P2. */
  lemma HearingIsMeeting(c: Config, m: Node, d: Config, s: Node, offset: nat, k: nat)
    requires c.Valid() && Good(c, m) && c.isMaster && !m.ok && m.sw.phase == PHASE2 && m.sw.phase2ElapsedMs == 0
    requires d.Valid() && Good(d, s) && !d.isMaster && !s.ok && s.sw.phase == PHASE2
    requires c.bauds == d.bauds && 1 <= offset <= SUB_TICK && k <= c.N()
    requires Hears(c, m, d, s, offset, k)
    ensures MeetsAt(c, m, d, s, offset, k)
  {
    hide Ticks, Sound;
    assert Firings(offset, SUB_TICK * k) == k;
    MasterDwells(c, m, k);
    SlaveWalks(d, s, k);
  }

  /** The first ping of the dwell that reaches the slave. */
  lemma FirstMeeting(c: Config, m: Node, d: Config, s: Node, offset: nat) returns (k: nat)
    requires c.Valid() && Good(c, m) && c.isMaster && !m.ok && m.sw.phase == PHASE2 && m.sw.phase2ElapsedMs == 0
    requires d.Valid() && Good(d, s) && !d.isMaster && !s.ok && s.sw.phase == PHASE2
    requires c.bauds == d.bauds && 1 <= offset <= SUB_TICK
    ensures k <= c.N() && MeetsAt(c, m, d, s, offset, k)
    ensures forall i: nat :: i < k ==> !Hears(c, m, d, s, offset, i)
  {
    hide Ticks, Sound;
    PingMeetsSlave(c, m, d, s, offset);
    var last: nat :| last <= c.N() && MeetsAt(c, m, d, s, offset, last);
    assert Hears(c, m, d, s, offset, last);
    hide Hears, MeetsAt;
    k := 0;
    while !Hears(c, m, d, s, offset, k)
      invariant k <= last && forall i: nat :: i < k ==> !Hears(c, m, d, s, offset, i)
      decreases last - k
    {
      k := k + 1;
    }
    HearingIsMeeting(c, m, d, s, offset, k);
  }

  /** A node hears what the other has just sent if both are tuned to one baud. */
  function Hear(c: Config, s: Node, from: Node): Node
    requires c.Valid() && Good(c, s)
  {
    if from.hw.uart == s.hw.uart && |from.hw.sent| == 1 then Step(c, s, Frame(from.hw.sent[0])) else s
  }

  /** Slave and master answer each other `n` times. */
  function Handshake(c: Config, m: Node, d: Config, s: Node, n: nat): (Node, Node)
    requires c.Valid() && Good(c, m) && d.Valid() && Good(d, s)
    decreases n
  {
    if n == 0 then (m, s)
    else
      HearKeepsGood(d, s, m);
      var s := Hear(d, s, m);
      HearKeepsGood(c, m, s);
      Handshake(c, Hear(c, m, s), d, s, n - 1)
  }

  lemma HandshakeStep(c: Config, m: Node, d: Config, s: Node, n: nat)
    requires c.Valid() && Good(c, m) && d.Valid() && Good(d, s) && n > 0
    ensures Good(d, Hear(d, s, m)) && Good(c, Hear(c, m, Hear(d, s, m)))
    ensures var s1 := Hear(d, s, m);
      var m1 := Hear(c, m, s1);
      Handshake(c, m, d, s, n) == if n == 1 then (m1, s1) else Handshake(c, m1, d, s1, n - 1)
  {
    hide Hear, Sound;
    HearKeepsGood(d, s, m);
    HearKeepsGood(c, m, Hear(d, s, m));
  }

  lemma HearKeepsGood(c: Config, s: Node, from: Node)
    requires c.Valid() && Good(c, s)
    ensures Good(c, Hear(c, s, from))
  {
    if |from.hw.sent| == 1 { StepKeepsGood(c, s, Frame(from.hw.sent[0])); }
  }

  /** The first answer takes both to P3. */
  lemma MeetInPhase3(c: Config, m: Node, d: Config, s: Node)
    requires Meeting(c, m, d, s, PHASE2, 0)
    ensures Good(d, Hear(d, s, m)) && Hear(d, s, m).spdI == s.spdI
    ensures var s1 := Hear(d, s, m);
      var m1 := Hear(c, m, s1);
      m1.hw.uart == m.hw.uart && Meeting(c, m1, d, s1, PHASE3, 0)
  {
  }

  /** The second is the first of the two ACKs. */
  lemma AckInPhase3(c: Config, m: Node, d: Config, s: Node)
    requires Meeting(c, m, d, s, PHASE3, 0)
    ensures Good(d, Hear(d, s, m)) && Hear(d, s, m).spdI == s.spdI
    ensures var s1 := Hear(d, s, m);
      var m1 := Hear(c, m, s1);
      m1.hw.uart == m.hw.uart && Meeting(c, m1, d, s1, PHASE3, 1)
  {
  }

  /** Both are locked at the baud of index `i`. */
  predicate LockedAt(m: Node, s: Node, i: int, uart: uint32) {
    m.ok && s.ok && m.spdI == s.spdI == i && m.hw.uart == s.hw.uart == uart
  }

  /** With the second ACK the slave locks, and its LOCK takes the master along. */
  lemma LockInPhase3(c: Config, m: Node, d: Config, s: Node)
    requires Meeting(c, m, d, s, PHASE3, 1)
    ensures var s1 := Hear(d, s, m); LockedAt(Hear(c, m, s1), s1, s.spdI, m.hw.uart)
  {
  }

  /** Once a PING has met the slave, three answers each way without a timer in between lock both at that baud. */
  lemma MeetingLocks(c: Config, m: Node, d: Config, s: Node)
    requires Meeting(c, m, d, s, PHASE2, 0)
    ensures var (m', s') := Handshake(c, m, d, s, 3); LockedAt(m', s', s.spdI, m.hw.uart)
  {
    hide Hear, LockedAt, Sound;
    MeetInPhase3(c, m, d, s);
    var s1 := Hear(d, s, m);
    var m1 := Hear(c, m, s1);
    AckInPhase3(c, m1, d, s1);
    var s2 := Hear(d, s1, m1);
    LockInPhase3(c, Hear(c, m1, s2), d, s2);
    HandshakeStep(c, m, d, s, 3);
    HandshakeStep(c, m1, d, s1, 2);
    HandshakeStep(c, Hear(c, m1, s2), d, s2, 1);
  }

  /** The master's `k`-th ping of a dwell starts a handshake that locks both at the master's baud. */
  ghost predicate LocksAfter(c: Config, m: Node, d: Config, s: Node, offset: nat, k: nat)
    requires c.Valid() && Good(c, m) && d.Valid() && Good(d, s)
  {
    var (m', s') := Handshake(c, Ticks(c, m, k), d, Ticks(d, s, Firings(offset, SUB_TICK * k)), 3);
    SUB_TICK * k < MasterDwell(c) && LockedAt(m', s', s'.spdI, m.hw.uart)
  }

  /**
    From any start of a dwell: some ping of it is the first that reaches the slave, no later than after one round of
    the list, and from there two nodes that lose no frame end up locked at the master's baud.
   */
  lemma RendezvousLocks(c: Config, m: Node, d: Config, s: Node, offset: nat)
    requires c.Valid() && Good(c, m) && c.isMaster && !m.ok && m.sw.phase == PHASE2 && m.sw.phase2ElapsedMs == 0
    requires d.Valid() && Good(d, s) && !d.isMaster && !s.ok && s.sw.phase == PHASE2
    requires c.bauds == d.bauds && 1 <= offset <= SUB_TICK
    ensures exists k: nat ::
      && k <= c.N() && LocksAfter(c, m, d, s, offset, k) && Hears(c, m, d, s, offset, k)
      && forall i: nat :: i < k ==> !Hears(c, m, d, s, offset, i)
  {
    hide Handshake, Meeting, Ticks, Sound;
    var k := FirstMeeting(c, m, d, s, offset);
    MeetingLocks(c, Ticks(c, m, k), d, Ticks(d, s, Firings(offset, SUB_TICK * k)));
    MeetingHears(c, m, d, s, offset, k);
    assert LocksAfter(c, m, d, s, offset, k);
  }

  lemma MeetingHears(c: Config, m: Node, d: Config, s: Node, offset: nat, k: nat)
    requires c.Valid() && Good(c, m) && d.Valid() && Good(d, s) && MeetsAt(c, m, d, s, offset, k)
    ensures Hears(c, m, d, s, offset, k)
  {
  }
}
