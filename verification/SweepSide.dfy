/** The node that runs the sweep, field by field as the handlers update it, proved against `SweepSpec.Step`. */
module SweepSide {
  import opened Wire
  import opened Timing
  import opened SweepSpec

  class SweepNode {
    const cfg: Config

    var ok: bool
    var spdI: int
    var sweep: Sweep   // phase, P3 baud and acks, time spent in the current dwell
    var camp: Camp     // the camp at a preserved baud
    var hw: Hw         // baud register, timer, and the control payloads of the current event
    var sweepPongCount: nat
    var preferredBaud: byte
    var wasEverOk: bool
    var scores: seq<nat>

    ghost function View(): Node
      reads this
    {
      Node(ok, spdI, sweep, camp, hw, sweepPongCount, preferredBaud, wasEverOk, scores)
    }

    /** What a handler may rely on; its own timer may have just fired. */
    ghost predicate Ready()
      reads this
    {
      cfg.Valid() && Sound(cfg, View())
    }

    ghost predicate Valid()
      reads this
    {
      cfg.Valid() && Good(cfg, View())
    }

    constructor (cfg: Config)
      requires cfg.Valid()
      ensures this.cfg == cfg && View() == Booted(cfg)
    {
      this.cfg := cfg;
      ok, spdI, sweep, camp, hw := false, 0, Sweep(NONE, -1, 0, 0), Camp(false, 0, 0), Hw(0, 0, []);
      sweepPongCount, preferredBaud, wasEverOk, scores := 0, NO_PREFERRED_BAUD, false, Zeros(cfg.N());
    }

    /** Tunes the UART to baud `i` of the list. */
    method SetSpd(i: int)
      requires cfg.Valid() && 0 <= i < cfg.N()
      modifies this`hw
      ensures hw == old(hw).(uart := cfg.bauds[i])
    {
      hw := hw.(uart := cfg.bauds[i]);
    }

    // ----- phase entries -----

    method EnterPhase1()
      requires cfg.Valid()
      modifies this
      ensures View() == SweepSpec.EnterPhase1(cfg, old(View()))
    {
      sweep := sweep.(phase := PHASE1);
      sweepPongCount := 0;
      var slowest := cfg.N() - 1;
      spdI := slowest;
      SetSpd(slowest);
      if cfg.isMaster {
        hw := hw.(sent := hw.sent + [PING_CMD]);
        hw := hw.(timerMs := cfg.delayMs);
      } else {
        hw := hw.(timerMs := MasterDwell(cfg) + 200);
      }
    }

    method EnterPhase2()
      requires cfg.Valid()
      modifies this
      ensures View() == SweepSpec.EnterPhase2(cfg, old(View()))
    {
      sweep := sweep.(phase := PHASE2);
      spdI := 0;
      SetSpd(0);
      if cfg.isMaster {
        hw := hw.(sent := hw.sent + [PING_CMD]);
        sweep := sweep.(phase2ElapsedMs := 0);
        var subTick := SUB_TICK;
        if subTick <= 0 || subTick > MasterDwell(cfg) {
          subTick := MasterDwell(cfg);
        }
        hw := hw.(timerMs := subTick);
      } else {
        hw := hw.(timerMs := SUB_TICK);
      }
    }

    method EnterPhase3(chosen: int)
      requires cfg.Valid() && 0 <= chosen < cfg.N()
      modifies this
      ensures View() == SweepSpec.EnterPhase3(cfg, old(View()), chosen)
    {
      sweep := sweep.(phase := PHASE3, phase3Baud := chosen, phase3Acks := 0);
      SetSpd(chosen);
      if cfg.isMaster {
        hw := hw.(sent := hw.sent + [PING_CMD]);
        hw := hw.(timerMs := P3TimerMs(cfg, chosen, 0));
      } else {
        hw := hw.(timerMs := P3TimerMs(cfg, chosen, 0) * (RESWEEP_PREF_MAX_ATTEMPTS + 1));
      }
    }

    method ResetPhases()
      modifies this`sweep
      ensures sweep == Sweep(NONE, -1, 0, 0)
    {
      sweep := Sweep(NONE, -1, 0, 0);
    }

    method LockOk(idx: int)
      requires cfg.Valid() && 0 <= idx < cfg.N()
      modifies this
      ensures View() == SweepSpec.LockOk(cfg, old(View()), idx)
      ensures old(ok) ==> View() == old(View())
      ensures !old(ok) ==>
        && ok && wasEverOk && spdI == preferredBaud == idx && !camp.pending && camp.attempts == 0
        && hw == old(hw).(uart := cfg.bauds[idx], timerMs := cfg.okTickMs)
    {
      if ok {
        return;
      }
      spdI := idx;
      SetSpd(idx);
      preferredBaud := idx;
      ok := true;
      wasEverOk := true;
      camp := camp.(pending := false, attempts := 0);
      hw := hw.(timerMs := cfg.okTickMs);
    }

    // ----- frames -----

    /** The fastest baud with at least `minHits` hits, else the fastest with any, else -1. */
    method PickBest(minHits: nat) returns (best: int)
      requires minHits >= 1 && |scores| > 0
      ensures if best < 0 then forall j :: 0 <= j < |scores| ==> scores[j] == 0 else best < |scores| && scores[best] > 0
    {
      for j := 0 to |scores| {
        if scores[j] >= minHits {
          return j;
        }
      }
      for j := 0 to |scores|
        invariant forall k :: 0 <= k < j ==> scores[k] == 0
      {
        if scores[j] > 0 {
          return j;
        }
      }
      best := -1;
    }

    /** Whatever the hit threshold, the answer is the fastest baud that heard anything at all. */
    method BestSpd(minHits: nat) returns (best: int)
      requires minHits >= 1 && |scores| > 0
      ensures best == SweepSpec.BestSpd(scores, 0)
    {
      best := PickBest(minHits);
      if best < 0 {
        BestIsFirst(scores, 0, |scores|);
        return 0;
      }
      for j := 0 to best
        invariant forall k :: 0 <= k < j ==> scores[k] == 0
      {
        if scores[j] > 0 {
          BestIsFirst(scores, 0, j);
          return j;
        }
      }
      BestIsFirst(scores, 0, best);
    }

    method HandleSwp(payload: byte, minHits: nat)
      requires Valid() && !ok && minHits >= 1
      modifies this
      ensures Valid() && View() == SweepSpec.HandleSwp(cfg, old(View()), payload)
      ensures ok ==> sweep.phase == NONE || payload == REQ_CMD
    {
      FrameKeepsGood(cfg, View(), payload);
      if payload >= LOCK_CMD && payload - LOCK_CMD < cfg.N() {
        var lockIdx := payload - LOCK_CMD;
        SetSpd(lockIdx);
        spdI := lockIdx;
        ResetPhases();
        LockOk(lockIdx);
      } else if !cfg.isMaster && payload == REQ_CMD {
        var best := BestSpd(minHits);
        hw := hw.(sent := hw.sent + [best]);
        LockOk(best);
      } else if cfg.isMaster && payload == PONG_CMD {
        OnPong();
      } else if !cfg.isMaster && payload == PING_CMD {
        OnPing();
      }
    }

    method LockAt(idx: int)
      requires cfg.Valid() && 0 <= idx < cfg.N()
      modifies this
      ensures View() == LockTogether(cfg, old(View()), idx)
    {
      ResetPhases();
      spdI := idx;
      SetSpd(idx);
      hw := hw.(sent := hw.sent + [LOCK_CMD + idx]);
      LockOk(idx);
    }

    method OnPong()
      requires Ready() && !ok && cfg.isMaster
      modifies this
      ensures View() == MasterPong(cfg, old(View()))
    {
      sweepPongCount := sweepPongCount + 1;
      match sweep.phase {
        case PHASE1 => EnterPhase2();
        case PHASE2 => EnterPhase3(spdI);
        case PHASE3 =>
          sweep := sweep.(phase3Acks := sweep.phase3Acks + 1);
          if sweep.phase3Acks >= PHASE3_ACKS_NEEDED {
            LockAt(sweep.phase3Baud);
          } else {
            hw := hw.(sent := hw.sent + [PING_CMD]);
            hw := hw.(timerMs := P3TimerMs(cfg, sweep.phase3Baud, sweep.phase3Acks));
          }
        case NONE =>
      }
    }

    method OnPing()
      requires Ready() && !ok && !cfg.isMaster
      modifies this
      ensures View() == SlavePing(cfg, old(View()))
    {
      scores := scores[spdI := scores[spdI] + 1];
      match sweep.phase {
        case PHASE1 =>
          hw := hw.(sent := hw.sent + [PONG_CMD]);
          EnterPhase2();
          hw := hw.(timerMs := SUB_TICK);
        case PHASE2 =>
          EnterPhase3(spdI);
          hw := hw.(sent := hw.sent + [PONG_CMD]);
        case PHASE3 =>
          sweep := sweep.(phase3Acks := sweep.phase3Acks + 1);
          if sweep.phase3Acks >= PHASE3_ACKS_NEEDED {
            LockAt(sweep.phase3Baud);
          } else {
            hw := hw.(sent := hw.sent + [PONG_CMD]);
          }
        case NONE => assert false;
      }
    }

    // ----- the timer -----

    /** The P2 tick: another ping inside the dwell, the next baud after it, the fallback lock at the end of the list. */
    method OnTimerMasterP2()
      requires Ready() && !ok && cfg.isMaster && sweep.phase == PHASE2
      modifies this
      ensures View() == MasterPhase2Timer(cfg, old(View()))
    {
      var dwell := MasterDwell(cfg);
      sweep := sweep.(phase2ElapsedMs := sweep.phase2ElapsedMs + SUB_TICK);
      if sweep.phase2ElapsedMs < dwell {
        hw := hw.(sent := hw.sent + [PING_CMD]);
        hw := hw.(timerMs := SUB_TICK);
        return;
      }
      sweep := sweep.(phase2ElapsedMs := 0);
      spdI := spdI + 1;
      if spdI + 1 >= cfg.N() {
        var lb := cfg.N() - 1;
        if sweepPongCount < 1 {
          assert false;
        }
        LockAt(lb);
        return;
      }
      SetSpd(spdI);
      hw := hw.(sent := hw.sent + [PING_CMD]);
      hw := hw.(timerMs := SUB_TICK);
    }

    /** The P3 tick of a camp: one more ping while it is open, else the walk from the slowest baud. */
    method OnTimerMasterCamp(now: uint32, seed: uint32)
      requires Ready() && !ok && cfg.isMaster && sweep.phase == PHASE3
      modifies this
      ensures View() == MasterCampTimer(cfg, old(View()), now, seed)
    {
      var campOpen := camp.deadlineMs != 0 && Signed(Elapsed(camp.deadlineMs, now)) > 0
        && camp.attempts < RESWEEP_PREF_ATTEMPT_CEILING;
      if campOpen {
        camp := camp.(attempts := camp.attempts + 1);
        hw := hw.(sent := hw.sent + [PING_CMD]);
        hw := hw.(timerMs := P3TimerMs(cfg, sweep.phase3Baud, sweep.phase3Acks));
        return;
      }
      camp := Camp(false, 0, 0);
      ResetPhases();
      var slowest := cfg.N() - 1;
      spdI := slowest;
      SetSpd(slowest);
      sweep := sweep.(phase := PHASE1);
      hw := hw.(sent := hw.sent + [PING_CMD]);
      hw := hw.(timerMs := JitterPhase1Dwell(cfg.delayMs, seed));
    }

    /** The P3 tick outside a camp: the next baud, or the fallback lock at the end of the list. */
    method OnTimerMasterP3(now: uint32, seed: uint32)
      requires Ready() && !ok && cfg.isMaster && sweep.phase == PHASE3
      modifies this
      ensures View() == MasterPhase3Timer(cfg, old(View()), now, seed)
    {
      if camp.pending {
        OnTimerMasterCamp(now, seed);
        return;
      }
      var next := sweep.phase3Baud + 1;
      if next >= cfg.N() {
        var lb := cfg.N() - 1;
        if sweepPongCount < 1 {
          assert false;
        }
        ResetPhases();
        spdI := lb;
        SetSpd(lb);
        LockOk(lb);
        return;
      }
      ResetPhases();
      spdI := next;
      SetSpd(next);
      hw := hw.(sent := hw.sent + [PING_CMD]);
      hw := hw.(timerMs := MasterDwell(cfg));
    }

    method OnTimerMaster(now: uint32, seed: uint32)
      requires Ready() && !ok && cfg.isMaster
      modifies this
      ensures Valid() && View() == MasterTimer(cfg, old(View()), now, seed)
      ensures ok ==> old(sweepPongCount) >= 1
    {
      MasterTimerArms(cfg, View(), now, seed);
      match sweep.phase {
        case PHASE1 =>
          hw := hw.(sent := hw.sent + [PING_CMD]);
          hw := hw.(timerMs := JitterPhase1Dwell(cfg.delayMs, seed));
        case PHASE2 => OnTimerMasterP2();
        case PHASE3 => OnTimerMasterP3(now, seed);
        case NONE => EnterPhase1();
      }
    }

    method OnTimerSlave(now: uint32)
      requires Ready() && !ok && !cfg.isMaster
      modifies this
      ensures Valid() && View() == SlaveTimer(cfg, old(View()), now)
      ensures !ok
    {
      SlaveTimerArms(cfg, View(), now);
      if sweep.phase == PHASE1 {
        hw := hw.(timerMs := MasterDwell(cfg) + 200);
        return;
      }
      if sweep.phase == PHASE2 {
        if spdI <= 0 {
          if cfg.N() <= 1 {
            hw := hw.(timerMs := SUB_TICK);
            return;
          }
          spdI := cfg.N() - 1;
          SetSpd(spdI);
          hw := hw.(timerMs := SUB_TICK);
          return;
        }
        spdI := spdI - 1;
        if spdI < 0 {
          assert false;
        }
        SetSpd(spdI);
        hw := hw.(timerMs := SUB_TICK);
        return;
      }
      CampTick(now);
    }

    /** The slave's P3 tick: two more looks while the camp lasts, then back to P1 without a preferred baud. */
    method CampTick(now: uint32)
      requires Ready() && !ok && !cfg.isMaster && sweep.phase == PHASE3
      modifies this
      ensures View() == SlaveTimer(cfg, old(View()), now)
    {
      var deadlineElapsed := camp.deadlineMs != 0 && Signed(Elapsed(now, camp.deadlineMs)) >= 0;
      if !deadlineElapsed && camp.attempts < RESWEEP_PREF_MAX_ATTEMPTS {
        camp := camp.(attempts := camp.attempts + 1);
        var rearmMs := cfg.idleTimeoutMs / 2;
        if rearmMs < 1000 {
          rearmMs := 1000;
        }
        if camp.deadlineMs != 0 {
          var remainingMs := Signed(Elapsed(camp.deadlineMs, now));
          if remainingMs > 0 {
            var budgetMs := remainingMs - 100;
            if budgetMs < 250 {
              budgetMs := 250;
            }
            if rearmMs > budgetMs {
              rearmMs := budgetMs;
            }
          }
        }
        hw := hw.(timerMs := rearmMs);
        return;
      }
      camp := Camp(false, 0, 0);
      preferredBaud := NO_PREFERRED_BAUD;
      EnterPhase1();
    }

    // ----- session control -----

    method Clear(preserve: bool, healthWatchdog: bool)
      requires cfg.Valid()
      modifies this
      ensures View() == Cleared(cfg, old(View()), preserve, healthWatchdog)
    {
      ok := false;
      spdI := 0;
      var slaveMayPreserve := !cfg.isMaster && healthWatchdog;
      if !preserve || (!cfg.isMaster && !slaveMayPreserve) {
        preferredBaud := NO_PREFERRED_BAUD;
        camp := camp.(pending := false);
      }
      sweepPongCount := 0;
      scores := Zeros(cfg.N());
    }

    method ResetLink(preserve: bool, healthWatchdog: bool, veto: bool, now: uint32)
      requires cfg.Valid()
      modifies this
      ensures Valid() && View() == SweepSpec.ResetLink(cfg, old(View()), preserve, healthWatchdog, veto, now)
      ensures !ok && sweep.phase in {PHASE1, PHASE3} && (camp.pending <==> sweep.phase == PHASE3)
    {
      ResetGood(cfg, View(), preserve, healthWatchdog, veto, now);
      Clear(preserve, healthWatchdog);
      if preserve && wasEverOk && preferredBaud != NO_PREFERRED_BAUD && preferredBaud < cfg.N() && !veto {
        spdI := preferredBaud;
        EnterPhase3(preferredBaud);
        camp := Camp(true, 0, (now + CampBudgetMs(cfg.syncAckTimeoutMs)) % 0x1_0000_0000);
      } else {
        EnterPhase1();
        camp := Camp(false, 0, 0);
      }
    }

    method KickOff()
      requires cfg.Valid()
      modifies this
      ensures old(Valid()) ==> Valid()
      ensures View() == SweepSpec.KickOff(cfg, old(View()))
    {
      if Valid() { KickOffKeepsGood(cfg, View()); }
      if ok {
        return;
      }
      if cfg.isMaster {
        ResetLink(false, false, false, 0);
      } else {
        spdI := cfg.N() - 1;
        scores := Zeros(cfg.N());
        sweep := sweep.(phase := PHASE1);
        SetSpd(spdI);
        hw := hw.(timerMs := MasterDwell(cfg) + 200);
      }
    }

    /** Any event: the node does exactly one step of the specification and stays valid. */
    method Handle(e: Event, minHits: nat)
      requires Valid() && minHits >= 1
      modifies this
      ensures Valid() && View() == Step(cfg, old(View()), e)
    {
      StepKeepsGood(cfg, View(), e);
      hw := hw.(sent := [], timerMs := if e.Timer? then 0 else hw.timerMs);
      match e {
        case Frame(payload) => if !ok { HandleSwp(payload, minHits); }
        case Timer(now, seed) =>
          if ok {
            hw := hw.(timerMs := cfg.okTickMs);
          } else if cfg.isMaster {
            OnTimerMaster(now, seed);
          } else {
            OnTimerSlave(now);
          }
        case Reset(preserve, healthWatchdog, veto, at) => ResetLink(preserve, healthWatchdog, veto, at);
        case Kickoff => KickOff();
      }
    }
  }

  /** The first baud with a hit, when none before `j` has one. */
  lemma {:induction false} BestIsFirst(scores: seq<nat>, i: nat, j: nat)
    requires i <= j <= |scores| && forall k :: i <= k < j ==> scores[k] == 0
    requires j < |scores| ==> scores[j] > 0
    ensures SweepSpec.BestSpd(scores, i) == if j == |scores| then 0 else j
    decreases j - i
  {
    if i < j {
      BestIsFirst(scores, i + 1, j);
    }
  }
}
