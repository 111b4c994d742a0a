/**
  Whole rounds of the sweep: how the master walks the list of bauds and falls back, how long it camps, and how two nodes
  that have just been kicked off end up locked at the fastest baud that carries frames.
 */
module SweepRound {
  import opened Wire
  import opened Timing
  import opened SweepSpec

  // ----- the master's walk -----

  /** The sub-ticks of one dwell: as many as it takes to fill it. */
  function DwellTicks(c: Config): (d: nat)
    ensures SUB_TICK * d >= MasterDwell(c) && (d > 0 ==> SUB_TICK * (d - 1) < MasterDwell(c))
    ensures d >= c.N()
  {
    (MasterDwell(c) + SUB_TICK - 1) / SUB_TICK
  }

  /** The bauds it dwells at: all but the slowest, or the only one. */
  function Dwells(c: Config): nat {
    if c.N() <= 1 then 1 else c.N() - 1
  }

  /** In P2 at baud `i`, `r` sub-ticks into the dwell. */
  predicate Dwelling(c: Config, s: Node, i: nat, r: nat) {
    && !s.ok && s.sw.phase == PHASE2 && s.spdI == i < c.N() && s.hw.uart == c.bauds[i]
    && s.sw.phase2ElapsedMs == SUB_TICK * r
  }

  /** The sub-tick that fills the dwell takes the master to the next baud, where it pings at once. */
  lemma MasterAdvances(c: Config, s: Node)
    requires c.Valid() && Good(c, s) && c.isMaster && !s.ok && s.sw.phase == PHASE2
    requires s.sw.phase2ElapsedMs + SUB_TICK >= MasterDwell(c) && s.spdI + 2 < c.N()
    ensures var r := Step(c, s, Timer(0, 0));
      Dwelling(c, r, (s.spdI + 1) as nat, 0) && r.hw.sent == [PING_CMD] && r.hw.timerMs == SUB_TICK
  {
  }

  /** At the end of the list it locks at the slowest baud instead, and tells the peer. */
  lemma MasterFallsBack(c: Config, s: Node)
    requires c.Valid() && Good(c, s) && c.isMaster && !s.ok && s.sw.phase == PHASE2
    requires s.sw.phase2ElapsedMs + SUB_TICK >= MasterDwell(c) && s.spdI + 2 >= c.N()
    ensures var r := Step(c, s, Timer(0, 0));
      r.ok && r.spdI == c.N() - 1 && r.hw.uart == c.bauds[c.N() - 1] && r.hw.sent == [LOCK_CMD + c.N() - 1]
  {
  }

  lemma TicksStep(c: Config, s: Node, n: nat)
    requires c.Valid() && Good(c, s)
    ensures Ticks(c, s, n + 1) == Step(c, Ticks(c, s, n), Timer(0, 0))
  {
  }

  /** What a master in its walk has just done. */
  predicate JustPinged(s: Node) { s.hw.sent == [PING_CMD] && s.hw.timerMs == SUB_TICK }

  lemma DwellGoesOn(c: Config, m: Node, k: nat, i: nat, r: nat)
    requires c.Valid() && Good(c, m) && c.isMaster && Dwelling(c, Ticks(c, m, k), i, r) && r + 1 < DwellTicks(c)
    ensures Dwelling(c, Ticks(c, m, k + 1), i, r + 1) && JustPinged(Ticks(c, m, k + 1))
  {
    hide Step, Ticks, Good, MasterDwell;
    TicksStep(c, m, k);
    TicksGood(c, m, k);
    MasterTick(c, Ticks(c, m, k));
  }

  lemma DwellEnds(c: Config, m: Node, k: nat, i: nat, r: nat)
    requires c.Valid() && Good(c, m) && c.isMaster && Dwelling(c, Ticks(c, m, k), i, r) && r + 1 == DwellTicks(c)
    requires i + 1 < Dwells(c)
    ensures Dwelling(c, Ticks(c, m, k + 1), i + 1, 0) && JustPinged(Ticks(c, m, k + 1))
  {
    hide Step, Ticks, Good, MasterDwell;
    TicksStep(c, m, k);
    TicksGood(c, m, k);
    MasterAdvances(c, Ticks(c, m, k));
  }

  /** With nothing heard, the master is `r` sub-ticks into its dwell at baud `i` when that many whole dwells have gone by. */
  lemma {:induction false} MasterWalks(c: Config, m: Node, i: nat, r: nat)
    requires c.Valid() && Good(c, m) && c.isMaster && Dwelling(c, m, 0, 0)
    requires i < Dwells(c) && r < DwellTicks(c)
    ensures var k := DwellTicks(c) * i + r;
      Dwelling(c, Ticks(c, m, k), i, r) && (k > 0 ==> JustPinged(Ticks(c, m, k)))
    decreases i, r
  {
    hide Dwelling, Dwells, DwellTicks, Ticks, Good, JustPinged;
    var d := DwellTicks(c);
    if r > 0 {
      MasterWalks(c, m, i, r - 1);
      DwellGoesOn(c, m, d * i + (r - 1), i, r - 1);
    } else if i > 0 {
      MasterWalks(c, m, i - 1, d - 1);
      DwellEnds(c, m, d * (i - 1) + (d - 1), i - 1, d - 1);
      NextDwell(d, i);
    } else {
      NoTicks(c, m);
    }
  }

  lemma NextDwell(d: nat, i: nat)
    requires i > 0
    ensures d * (i - 1) + (d - 1) + 1 == d * i + 0
  {
  }

  lemma TicksGood(c: Config, s: Node, n: nat)
    requires c.Valid() && Good(c, s)
    ensures Good(c, Ticks(c, s, n))
  {
  }

  lemma NoTicks(c: Config, s: Node)
    requires c.Valid() && Good(c, s)
    ensures Ticks(c, s, 0) == s
  {
  }

  /** After the last of these dwells it is locked at the slowest baud. */
  lemma MasterRoundEnds(c: Config, m: Node)
    requires c.Valid() && Good(c, m) && c.isMaster && Dwelling(c, m, 0, 0)
    ensures var r := Ticks(c, m, DwellTicks(c) * Dwells(c));
      r.ok && r.spdI == c.N() - 1 && r.hw.uart == c.bauds[c.N() - 1] && r.hw.sent == [LOCK_CMD + c.N() - 1]
  {
    hide Step, Ticks, Good;
    var d, i := DwellTicks(c), Dwells(c) - 1;
    MasterWalks(c, m, i, d - 1);
    var k := d * i + (d - 1);
    assert k + 1 == d * Dwells(c) by { assert d * (i + 1) == d * i + d; }
    TicksStep(c, m, k);
    TicksGood(c, m, k);
    MasterFallsBack(c, Ticks(c, m, k));
  }

  // ----- a whole round -----

  lemma {:induction false} TicksAdd(c: Config, s: Node, a: nat, b: nat)
    requires c.Valid() && Good(c, s)
    ensures Good(c, Ticks(c, s, a)) && Ticks(c, s, a + b) == Ticks(c, Ticks(c, s, a), b)
    decreases b
  {
    hide Step, Good, Ticks;
    TicksGood(c, s, a);
    if b == 0 {
      NoTicks(c, Ticks(c, s, a));
    } else {
      TicksAdd(c, s, a, b - 1);
      TicksStep(c, s, a + (b - 1));
      TicksStep(c, Ticks(c, s, a), b - 1);
    }
  }

  /** The slave walks on for as long as it hears nothing. */
  lemma {:induction false} SlaveGoesOn(c: Config, s: Node, n: nat)
    requires c.Valid() && Good(c, s) && !c.isMaster && !s.ok && s.sw.phase == PHASE2
    ensures var r := Ticks(c, s, n); Good(c, r) && !r.ok && r.sw.phase == PHASE2
  {
    hide Step, Good, Ticks;
    TicksGood(c, s, n);
    if n > 0 {
      SlaveGoesOn(c, s, n - 1);
      TicksStep(c, s, n - 1);
      SlaveTick(c, Ticks(c, s, n - 1));
    } else {
      NoTicks(c, s);
    }
  }

  /** The master's `k`-th ping of the round reaches the slave, at a baud that carries frames. */
  ghost predicate Reaches(c: Config, m: Node, d: Config, s: Node, offset: nat, works: set<uint32>, k: nat)
    requires c.Valid() && Good(c, m) && d.Valid() && Good(d, s)
  {
    Hears(c, m, d, s, offset, k) && Ticks(c, m, k).hw.uart in works
  }

  /** The handshake that the `k`-th ping of the round starts locks both at `uart`. */
  ghost predicate LocksBoth(c: Config, m: Node, d: Config, s: Node, offset: nat, k: nat, uart: uint32)
    requires c.Valid() && Good(c, m) && d.Valid() && Good(d, s)
  {
    var (m', s') := Handshake(c, Ticks(c, m, k), d, Ticks(d, s, Firings(offset, SUB_TICK * k)), 3);
    LockedAt(m', s', s'.spdI, uart)
  }

  lemma FiringsAre(offset: nat, k: nat)
    requires 1 <= offset <= SUB_TICK
    ensures Firings(offset, SUB_TICK * k) == k
  {
  }

  /** Tick `j` of the first `i` dwells of `t` ticks each lies in one of them. */
  lemma InDwell(t: nat, i: nat, j: nat) returns (x: nat, r: nat)
    requires j < t * i
    ensures x < i && r < t && j == t * x + r
    decreases i
  {
    if j < t * (i - 1) {
      x, r := InDwell(t, i - 1, j);
    } else {
      x, r := i - 1, j - t * (i - 1);
      assert t * i == t * (i - 1) + t;
    }
  }

  /** No ping reaches the slave at a baud that carries nothing. */
  lemma SilentDwell(c: Config, m: Node, d: Config, s: Node, offset: nat, works: set<uint32>, i: nat, j: nat)
    requires c.Valid() && Good(c, m) && c.isMaster && Dwelling(c, m, 0, 0) && d.Valid() && Good(d, s)
    requires i <= Dwells(c) && (forall x :: 0 <= x < i ==> c.bauds[x] !in works) && j < DwellTicks(c) * i
    ensures !Reaches(c, m, d, s, offset, works, j)
  {
    hide Ticks, Good, DwellTicks, MasterDwell;
    var x, r := InDwell(DwellTicks(c), i, j);
    MasterWalks(c, m, x, r);
  }

  /** Both nodes `n` sub-ticks later. */
  lemma HearsLater(c: Config, m: Node, d: Config, s: Node, offset: nat, n: nat, k: nat)
    requires c.Valid() && Good(c, m) && d.Valid() && Good(d, s) && 1 <= offset <= SUB_TICK
    ensures Good(c, Ticks(c, m, n)) && Good(d, Ticks(d, s, n))
    ensures Hears(c, m, d, s, offset, n + k) <==> Hears(c, Ticks(c, m, n), d, Ticks(d, s, n), offset, k)
    ensures Ticks(c, m, n + k) == Ticks(c, Ticks(c, m, n), k)
    ensures Ticks(d, s, Firings(offset, SUB_TICK * (n + k))) == Ticks(d, Ticks(d, s, n), Firings(offset, SUB_TICK * k))
  {
    hide Ticks, Good;
    FiringsAre(offset, k);
    FiringsAre(offset, n + k);
    TicksAdd(c, m, n, k);
    TicksAdd(d, s, n, k);
  }

  /**
    One round finds the fastest baud that carries frames: no ping of the dwells before it reaches the slave, one of its
    own does, and that one starts a handshake that locks both nodes there.
   */
  lemma RoundLocks(c: Config, m: Node, d: Config, s: Node, offset: nat, works: set<uint32>, i: nat) returns (k: nat)
    requires c.Valid() && Good(c, m) && c.isMaster && Dwelling(c, m, 0, 0)
    requires d.Valid() && Good(d, s) && !d.isMaster && !s.ok && s.sw.phase == PHASE2
    requires c.bauds == d.bauds && 1 <= offset <= SUB_TICK
    requires i < Dwells(c) && c.bauds[i] in works && forall x :: 0 <= x < i ==> c.bauds[x] !in works
    ensures DwellTicks(c) * i <= k <= DwellTicks(c) * i + c.N()
    ensures Reaches(c, m, d, s, offset, works, k) && forall j: nat :: j < k ==> !Reaches(c, m, d, s, offset, works, j)
    ensures LocksBoth(c, m, d, s, offset, k, c.bauds[i])
  {
    hide Ticks, Good, Hears, Handshake, Meeting;
    var n := DwellTicks(c) * i;
    var m', s' := Ticks(c, m, n), Ticks(d, s, n);
    MasterWalks(c, m, i, 0);
    TicksGood(c, m, n);
    SlaveGoesOn(d, s, n);
    var f := FirstMeeting(c, m', d, s', offset);
    k := n + f;
    HearsLater(c, m, d, s, offset, n, f);
    MeetingHears(c, m', d, s', offset, f);
    MeetingLocks(c, Ticks(c, m', f), d, Ticks(d, s', Firings(offset, SUB_TICK * f)));
    forall j: nat | j < k
      ensures !Reaches(c, m, d, s, offset, works, j)
    {
      if j < n {
        SilentDwell(c, m, d, s, offset, works, i, j);
      } else {
        HearsLater(c, m, d, s, offset, n, j - n);
      }
    }
  }

  /** The first PING and PONG after both nodes have been kicked off cross at the slowest baud and take both to P2. */
  lemma FirstContact(c: Config, d: Config)
    requires c.Valid() && c.isMaster && d.Valid() && !d.isMaster && c.bauds == d.bauds
    ensures var m0, s0 := KickOff(c, Booted(c)), KickOff(d, Booted(d));
      && Good(c, m0) && Good(d, s0) && m0.hw.sent == [PING_CMD] && m0.hw.uart == s0.hw.uart == c.bauds[c.N() - 1]
      && var s1 := Step(d, s0, Frame(PING_CMD));
         var m1 := Step(c, m0, Frame(PONG_CMD));
         && s1.hw.sent == [PONG_CMD] && Good(d, s1) && !s1.ok && s1.sw.phase == PHASE2 && s1.hw.timerMs == SUB_TICK
         && Good(c, m1) && Dwelling(c, m1, 0, 0) && m1.hw.sent == [PING_CMD] && m1.hw.timerMs == SUB_TICK
  {
    FirstKickoffGood(c);
    FirstKickoffGood(d);
  }

  /**
    From kickoff to lock: if the slowest baud carries the first contact, two nodes that lose no other frame end up locked
    at the fastest baud of the list that carries frames.
   */
  lemma KickoffLocks(c: Config, d: Config, offset: nat, works: set<uint32>, i: nat) returns (k: nat)
    requires c.Valid() && c.isMaster && d.Valid() && !d.isMaster && c.bauds == d.bauds && 1 <= offset <= SUB_TICK
    requires c.bauds[c.N() - 1] in works
    requires i < Dwells(c) && c.bauds[i] in works && forall x :: 0 <= x < i ==> c.bauds[x] !in works
    ensures Good(c, KickOff(c, Booted(c))) && Good(d, KickOff(d, Booted(d)))
    ensures var m := Step(c, KickOff(c, Booted(c)), Frame(PONG_CMD));
      var s := Step(d, KickOff(d, Booted(d)), Frame(PING_CMD));
      && Good(c, m) && Good(d, s)
      && Reaches(c, m, d, s, offset, works, k) && (forall j: nat :: j < k ==> !Reaches(c, m, d, s, offset, works, j))
      && LocksBoth(c, m, d, s, offset, k, c.bauds[i])
  {
    hide Good, Step, KickOff, Reaches, LocksBoth;
    FirstContact(c, d);
    k := RoundLocks(c, Step(c, KickOff(c, Booted(c)), Frame(PONG_CMD)), d,
                    Step(d, KickOff(d, Booted(d)), Frame(PING_CMD)), offset, works, i);
  }

  // ----- waiting in P1 -----

  /** A node in P1 that hears nothing stays tuned where it is; a master pings at every tick. */
  lemma {:induction false} Phase1Waits(c: Config, s: Node, n: nat)
    requires c.Valid() && Good(c, s) && !s.ok && s.sw.phase == PHASE1
    ensures var r := Ticks(c, s, n);
      && !r.ok && r.sw.phase == PHASE1 && r.spdI == s.spdI && r.hw.uart == s.hw.uart
      && (n > 0 ==> r.hw.sent == if c.isMaster then [PING_CMD] else [])
  {
    hide Ticks, Good, Sound;
    TicksGood(c, s, n);
    if n > 0 {
      Phase1Waits(c, s, n - 1);
      TicksStep(c, s, n - 1);
      Phase1Tick(c, Ticks(c, s, n - 1));
    } else {
      NoTicks(c, s);
    }
  }

  lemma Phase1Tick(c: Config, s: Node)
    requires c.Valid() && Good(c, s) && !s.ok && s.sw.phase == PHASE1
    ensures var r := Step(c, s, Timer(0, 0));
      && !r.ok && r.sw.phase == PHASE1 && r.spdI == s.spdI && r.hw.uart == s.hw.uart
      && r.hw.sent == if c.isMaster then [PING_CMD] else []
  {
  }

  // ----- leaving P3 -----

  /**
    A master whose P3 goes unanswered, outside a camp, pings once at the next slower baud and is back in P1 at the slowest
    a tick later; from the slowest baud it locks there.
   */
  lemma MasterLeavesPhase3(c: Config, s: Node, t: uint32, r: uint32)
    requires c.Valid() && Good(c, s) && c.isMaster && !s.ok && s.sw.phase == PHASE3 && !s.camp.pending
    ensures var a := Step(c, s, Timer(t, r));
      && Good(c, a)
      && (s.spdI + 1 >= c.N() ==> a.ok && a.spdI == c.N() - 1 && a.hw.sent == [])
      && (s.spdI + 1 < c.N() ==>
            && !a.ok && a.spdI == s.spdI + 1 && a.hw.sent == [PING_CMD] && a.hw.timerMs == MasterDwell(c)
            && var b := Step(c, a, Timer(t, r));
               !b.ok && b.sw.phase == PHASE1 && b.spdI == c.N() - 1 && b.hw.sent == [PING_CMD])
  {
    StepKeepsGood(c, s, Timer(t, r));
  }

  // ----- the camp -----

  /** Timer ticks at the times `at`. */
  function TimersAt(at: seq<uint32>): seq<Event> {
    if at == [] then [] else [Timer(at[0], 0)] + TimersAt(at[1..])
  }

  /** The deadline lies ahead of each of these times. */
  predicate AllBefore(at: seq<uint32>, deadlineMs: uint32) {
    deadlineMs != 0 && forall i :: 0 <= i < |at| ==> Signed(Elapsed(deadlineMs, at[i])) > 0
  }

  lemma CampTick(c: Config, s: Node, now: uint32)
    requires c.Valid() && Good(c, s) && c.isMaster && s.camp.pending
    requires s.camp.deadlineMs != 0 && Signed(Elapsed(s.camp.deadlineMs, now)) > 0 && s.camp.attempts < 24
    ensures var r := Step(c, s, Timer(now, 0));
      && r.camp == s.camp.(attempts := s.camp.attempts + 1) && r.hw.sent == [PING_CMD]
      && !r.ok && r.sw.phase == PHASE3 && r.spdI == s.spdI && r.hw.uart == s.hw.uart
  {
  }

  /** Until its deadline a master's camp pings at the baud it kept at every tick, 24 times at most. */
  lemma {:induction false} CampPings(c: Config, s: Node, at: seq<uint32>)
    requires c.Valid() && Good(c, s) && c.isMaster && s.camp.pending
    requires AllBefore(at, s.camp.deadlineMs) && s.camp.attempts + |at| <= 24
    ensures var r := Run(c, s, TimersAt(at));
      && Good(c, r) && r.camp == s.camp.(attempts := s.camp.attempts + |at|)
      && !r.ok && r.sw.phase == PHASE3 && r.spdI == s.spdI && r.hw.uart == s.hw.uart
      && (at != [] ==> r.hw.sent == [PING_CMD])
    decreases |at|
  {
    hide Good, Step;
    if at != [] {
      var n := Step(c, s, Timer(at[0], 0));
      CampTick(c, s, at[0]);
      StepKeepsGood(c, s, Timer(at[0], 0));
      RunCons(c, s, Timer(at[0], 0), TimersAt(at[1..]));
      CampPings(c, n, at[1..]);
    } else {
      PhaseOfCamp(c, s);
    }
  }

  lemma PhaseOfCamp(c: Config, s: Node)
    requires c.Valid() && Good(c, s) && c.isMaster && s.camp.pending
    ensures !s.ok && s.sw.phase == PHASE3
  {
  }

  /** Behind the deadline, or after 24 pings, the next tick ends the camp and starts over in P1 at the slowest baud. */
  lemma CampGivesUp(c: Config, s: Node, now: uint32, seed: uint32)
    requires c.Valid() && Good(c, s) && c.isMaster && s.camp.pending
    requires s.camp.deadlineMs == 0 || Signed(Elapsed(s.camp.deadlineMs, now)) <= 0 || s.camp.attempts >= 24
    ensures var r := Step(c, s, Timer(now, seed));
      && r.camp == Camp(false, 0, 0) && !r.ok && r.sw.phase == PHASE1 && r.spdI == c.N() - 1
      && r.hw.sent == [PING_CMD]
  {
  }

  /** A slave looks twice more, while its deadline lies ahead, and forgets its baud at the third tick. */
  lemma SlaveLooksTwice(c: Config, s: Node, t0: uint32, t1: uint32, t2: uint32)
    requires c.Valid() && Good(c, s) && !c.isMaster && !s.ok && s.sw.phase == PHASE3 && s.camp.attempts == 0
    requires s.camp.deadlineMs != 0 && Signed(Elapsed(t0, s.camp.deadlineMs)) < 0
    requires Signed(Elapsed(t1, s.camp.deadlineMs)) < 0
    ensures var a := Step(c, s, Timer(t0, 0));
      && Good(c, a) && !a.ok && a.sw.phase == PHASE3 && a.spdI == s.spdI
      && var b := Step(c, a, Timer(t1, 0));
         && Good(c, b) && !b.ok && b.sw.phase == PHASE3 && b.spdI == s.spdI
         && var r := Step(c, b, Timer(t2, 0));
            && !r.ok && r.sw.phase == PHASE1 && r.spdI == c.N() - 1 && !r.camp.pending
            && r.preferredBaud == NO_PREFERRED_BAUD
  {
    StepKeepsGood(c, s, Timer(t0, 0));
    StepKeepsGood(c, Step(c, s, Timer(t0, 0)), Timer(t1, 0));
  }

  /** The camp's deadline lies three to five seconds ahead. */
  lemma BudgetAhead(syncAckTimeoutMs: uint32, at: uint32)
    ensures 3000 <= Elapsed((at + CampBudgetMs(syncAckTimeoutMs)) % 0x1_0000_0000, at) <= 5000
  {
  }

  /** Whether a reset may keep the baud of the last lock. */
  predicate KeepsBaud(c: Config, s: Node, preserve: bool, healthWatchdog: bool, veto: bool) {
    && preserve && (c.isMaster || healthWatchdog) && !veto
    && s.wasEverOk && s.preferredBaud != NO_PREFERRED_BAUD && s.preferredBaud < c.N()
  }

  /** Such a reset camps at that baud, for three to five seconds. */
  lemma ResetCamps(c: Config, s: Node, preserve: bool, healthWatchdog: bool, veto: bool, at: uint32)
    requires c.Valid() && Good(c, s) && KeepsBaud(c, s, preserve, healthWatchdog, veto)
    ensures var r := Step(c, s, Reset(preserve, healthWatchdog, veto, at));
      && !r.ok && r.pongs == 0 && r.scores == Zeros(c.N())
      && r.sw.phase == PHASE3 && r.spdI == s.preferredBaud && r.preferredBaud == s.preferredBaud
      && r.camp.pending && r.camp.attempts == 0 && 3000 <= Elapsed(r.camp.deadlineMs, at) <= 5000
      && r.hw.sent == if c.isMaster then [PING_CMD] else []
  {
    hide Elapsed, CampBudgetMs, P3TimerMs, Zeros;
    BudgetAhead(c.syncAckTimeoutMs, at);
  }

  /** Any other starts over in P1 at the slowest baud, with no camp left; only one that may preserve remembers the baud. */
  lemma ResetStartsOver(c: Config, s: Node, preserve: bool, healthWatchdog: bool, veto: bool, at: uint32)
    requires c.Valid() && Good(c, s) && !KeepsBaud(c, s, preserve, healthWatchdog, veto)
    ensures var r := Step(c, s, Reset(preserve, healthWatchdog, veto, at));
      && !r.ok && r.pongs == 0 && r.scores == Zeros(c.N())
      && r.sw.phase == PHASE1 && r.spdI == c.N() - 1 && r.camp == Camp(false, 0, 0)
      && r.preferredBaud == (if preserve && (c.isMaster || healthWatchdog) then s.preferredBaud else NO_PREFERRED_BAUD)
      && r.wasEverOk == s.wasEverOk
      && r.hw.sent == if c.isMaster then [PING_CMD] else []
  {
    hide Elapsed, CampBudgetMs, P3TimerMs, Zeros;
  }

  // ----- locks -----

  /** A lock frame for a baud of the list locks there, whatever the phase; any other value of it does nothing. */
  lemma LockFrameLocks(c: Config, s: Node, i: byte)
    requires c.Valid() && Good(c, s) && !s.ok && LOCK_CMD + i < 0x100
    ensures var r := Step(c, s, Frame(LOCK_CMD + i));
      && (i < c.N() ==> r.ok && r.spdI == i && r.hw.uart == c.bauds[i] && r.preferredBaud == i && !r.camp.pending)
      && (i >= c.N() ==> r == s.(hw := s.hw.(sent := [])))
  {
  }

  /** A slave asked for its verdict locks at the fastest baud it has heard a PING at, or at the fastest, and says so. */
  lemma RequestLocksBest(c: Config, s: Node)
    requires c.Valid() && Good(c, s) && !s.ok && !c.isMaster
    ensures var r := Step(c, s, Frame(REQ_CMD));
      && r.ok && r.hw.sent == [r.spdI] && r.hw.uart == c.bauds[r.spdI]
      && (forall j :: 0 <= j < r.spdI ==> s.scores[j] == 0)
      && (s.scores[r.spdI] > 0 || (r.spdI == 0 && forall j :: 0 <= j < |s.scores| ==> s.scores[j] == 0))
  {
    BestFirst(s.scores, 0);
  }

  lemma {:induction false} BestFirst(scores: seq<nat>, i: nat)
    requires i <= |scores|
    ensures var b := BestSpd(scores, i);
      && (b >= i || b == 0) && (forall j :: i <= j < |scores| && scores[j] > 0 ==> i <= b < |scores| && scores[b] > 0 && b <= j)
      && ((forall j :: i <= j < |scores| ==> scores[j] == 0) ==> b == 0)
    decreases |scores| - i
  {
    if i < |scores| && scores[i] == 0 {
      BestFirst(scores, i + 1);
    }
  }

  /** Every PING a slave hears counts for the baud it is tuned to. */
  lemma PingsAreScored(c: Config, s: Node)
    requires c.Valid() && Good(c, s) && !s.ok && !c.isMaster
    ensures var r := Step(c, s, Frame(PING_CMD));
      |r.scores| == |s.scores|
      && forall j :: 0 <= j < |s.scores| ==> r.scores[j] == s.scores[j] + (if j == s.spdI then 1 else 0)
  {
  }

  // ----- a locked node -----

  /** Frames, timer ticks and kickoffs leave a locked node locked where it is; only a reset ends it. */
  lemma OnlyResetUnlocks(c: Config, s: Node, e: Event)
    requires c.Valid() && Good(c, s) && s.ok
    ensures var r := Step(c, s, e);
      && (r.ok <==> !e.Reset?)
      && (!e.Reset? ==> r.spdI == s.spdI && r.hw.uart == s.hw.uart && r.hw.sent == [] && r.sw == s.sw && r.camp == s.camp
                        && r.preferredBaud == s.preferredBaud && r.scores == s.scores)
      && (e.Timer? ==> r.hw.timerMs == c.okTickMs)
  {
  }

  // ----- the timers fit each other -----

  /** The slave waits in P3 for three of the master's P3 timers at that baud, and in P1 for longer than a master's dwell. */
  lemma SlaveOutwaitsMaster(c: Config, m: Node, d: Config, s: Node, i: int)
    requires c.Valid() && c.isMaster && d.Valid() && !d.isMaster && c.bauds == d.bauds && 0 <= i < c.N()
    ensures EnterPhase3(d, s, i).hw.timerMs == 3 * EnterPhase3(c, m, i).hw.timerMs
    ensures EnterPhase1(d, s).hw.timerMs > MasterDwell(c) >= SUB_TICK * c.N()
  {
  }

  /** A master's P3 timer covers the ACKs still missing and one more, each a round trip on the wire. */
  lemma Phase3TimerCovers(c: Config, i: int, acks: int)
    requires c.Valid() && 0 <= i < c.N() && 0 <= acks <= 2
    ensures P3TimerMs(c, i, acks) > (3 - acks) * RoundTripMs(c.bauds[i])
    ensures acks < 2 ==> P3TimerMs(c, i, acks + 1) <= P3TimerMs(c, i, acks)
  {
  }

  /** The P1 dwell is spread, but by no more than a sixth, and never to nothing. */
  lemma JitterInRange(baseMs: int, seed: uint32)
    requires baseMs >= 6
    ensures var d := JitterPhase1Dwell(baseMs, seed); baseMs - baseMs / 6 <= d <= baseMs + baseMs / 6
  {
  }

  /** A camping slave looks again well before its deadline when that is far enough away, and no later than it otherwise would. */
  lemma RearmFits(c: Config, s: Node, now: uint32)
    requires c.Valid()
    ensures var ms, left := RearmMs(c, s, now), Signed(Elapsed(s.camp.deadlineMs, now));
      && 250 <= ms && (ms <= 1000 || ms <= c.idleTimeoutMs / 2)
      && (s.camp.deadlineMs != 0 && left >= 350 ==> ms <= left - 100)
      && (s.camp.deadlineMs == 0 ==> ms >= 1000 && ms >= c.idleTimeoutMs / 2)
  {
  }

  /** A node that locks remembers the baud, and that it has been locked. */
  predicate Remembers(s: Node) { s.ok && s.wasEverOk && s.preferredBaud == s.spdI && !s.camp.pending }

  lemma FrameRemembers(c: Config, s: Node, payload: byte)
    requires c.Valid() && Good(c, s) && !s.ok
    ensures var r := Step(c, s, Frame(payload)); r.ok ==> Remembers(r)
  {
    hide P3TimerMs, BestSpd;
  }

  lemma TimerRemembers(c: Config, s: Node, now: uint32, seed: uint32)
    requires c.Valid() && Good(c, s) && !s.ok
    ensures var r := Step(c, s, Timer(now, seed)); r.ok ==> Remembers(r)
  {
    hide P3TimerMs, JitterPhase1Dwell, RearmMs, Elapsed, Signed;
  }

  /** However it has locked, a reset that may preserve the baud camps there. */
  lemma LockThenCamp(c: Config, s: Node, e: Event, healthWatchdog: bool, at: uint32)
    requires c.Valid() && Good(c, s) && !s.ok && Step(c, s, e).ok && Good(c, Step(c, s, e)) && (c.isMaster || healthWatchdog)
    requires c.N() <= NO_PREFERRED_BAUD
    ensures var l := Step(c, s, e);
      var r := Step(c, l, Reset(true, healthWatchdog, false, at));
      !r.ok && r.sw.phase == PHASE3 && r.spdI == l.spdI && r.hw.uart == l.hw.uart && r.camp.pending
  {
    hide Elapsed, CampBudgetMs, P3TimerMs, Zeros, HandleSwp, MasterTimer, SlaveTimer;
    match e
    case Frame(payload) => FrameRemembers(c, s, payload);
    case Timer(now, seed) => TimerRemembers(c, s, now, seed);
    case Reset(_, _, _, _) =>
    case Kickoff =>
  }

  /** A kickoff has a node that is not locked start over in P1 at the slowest baud, its scores cleared. */
  lemma KickoffStartsOver(c: Config, s: Node)
    requires c.Valid() && Good(c, s) && !s.ok
    ensures var r := Step(c, s, Kickoff);
      && !r.ok && r.sw.phase == PHASE1 && r.spdI == c.N() - 1 && r.scores == Zeros(c.N())
      && (c.isMaster ==> r.pongs == 0 && r.camp == Camp(false, 0, 0) && r.preferredBaud == NO_PREFERRED_BAUD
                         && r.hw.sent == [PING_CMD])
      && (!c.isMaster ==> r.camp == s.camp && r.preferredBaud == s.preferredBaud && r.hw.sent == [])
  {
    hide Zeros;
  }
}
