/**
  The sending half of the link: the slot table, the retransmission cache and the retry fields, kept in step
  with `tx`, the unbounded numbering of `GoBackN`. Every method is proved against a function of `GoBackN` or
  `Ladder`; branches of the source that guard against a broken table are asserted unreachable.
 */
module SenderSide {
  import opened Wire
  import opened SeqSpace
  import opened Timing
  import opened GoBackN
  import opened SenderTables
  import A = Arq
  import C = Cache
  import L = Ladder

  class Sender {
    const arq: A.LinkArq
    const cache: C.ArqCache
    const cfg: RetryConfig

    var txSeq: byte
    var txSeqLap: byte
    var retry: L.State
    var lastResend: L.Resend
    var lastNakSeq: byte

    ghost var tx: Tx

    ghost predicate Tables()
      reads this`tx, arq.slots, cache, cache.Repr
    {
      && {this, arq, arq.slots} !! cache.Repr
      && tx.Valid() && arq.Valid() && SlotsAgree(arq.slots[..], tx)
      && cache.Valid() && cache.window <= WINDOW && CacheAgrees(cache.Contents, tx)
      && ChunksOk(tx)
    }

    ghost predicate Valid()
      reads this, arq, arq.slots, cache, cache.Repr
      ensures Valid() ==> tx.Valid() && cache.window <= WINDOW
    {
      && Tables()
      && txSeq == SeqOf(|tx.chunks|)
      && arq.gbnBase == SeqOf(tx.base)
      && (arq.gbnActive <==> tx.Pending() > 0)
      && L.KeepBounded(retry)
    }

    constructor (cfg: RetryConfig, cache: C.ArqCache)
      requires cache.Valid() && cache.Contents == map[] && cache.window <= WINDOW
      ensures Valid() && this.cache == cache && this.cfg == cfg && tx == Tx(0, [])
      ensures fresh(arq) && fresh(arq.slots)
    {
      this.cfg, this.cache := cfg, cache;
      arq := new A.LinkArq();
      txSeq, txSeqLap := 0, 0;
      retry := L.State(0, 0, 0, L.NO_BASE, 0, 0, L.NO_BASE, 0);
      lastResend := L.Resend(L.NO_BASE, 0);
      lastNakSeq := 0xFF;
      tx := Tx(0, []);
      new;
      A.CountPendingNone(arq.slots[..]);
    }

    /** Frees the first slot of the window. */
    method FreeSlot(s: byte, bytes: uint16)
      requires tx.Valid() && arq.Valid() && SlotsAgree(arq.slots[..], tx) && tx.Pending() > 0 && s == SeqOf(tx.base)
      modifies arq.slots
      ensures SlotsAgree(arq.slots[..], tx.(base := tx.base + 1))
      ensures arq.slots[..] == old(arq.slots[..])[SlotOf(tx.base) := A.Acked(old(arq.slots[SlotOf(tx.base)]), bytes)]
    {
      hide SlotsAgree, SeqOf, BudgetIdx;
      FreeFirstSlot(arq.slots[..], tx, A.Acked(arq.slots[BudgetIdx(s)], bytes));
      arq.OnAcked(s, bytes);
    }

    /** Frees the first chunk of the window in both tables, as each step of the two walks does. */
    method FreeFirst(s: byte, bytes: uint16)
      requires Tables() && tx.Pending() > 0 && s == SeqOf(tx.base)
      modifies this`tx, this`lastNakSeq, arq.slots, cache.Repr
      ensures Tables() && tx == old(tx).(base := old(tx.base) + 1)
      ensures cache.window == old(cache.window)
      ensures arq.slots[..] == old(arq.slots[..])[SlotOf(old(tx.base)) := A.Acked(old(arq.slots[SlotOf(tx.base)]), bytes)]
      ensures lastNakSeq == if old(lastNakSeq) == s then 0xFF else old(lastNakSeq)
    {
      hide SlotsAgree, CacheAgrees, SeqOf, SlotOf, BudgetIdx, C.ArqCache.Valid;
      FreeFirstCached(cache.Contents, tx);
      FreeSlot(s, bytes);
      cache.FreeBySeq(s);
      if lastNakSeq == s {
        lastNakSeq := 0xFF;
      }
      tx := tx.(base := tx.base + 1);
    }

    /** What the walk records for a chunk: the ACK's own count for the one it names, the cached length for the others. */
    method BytesOf(s: byte, acked: byte, bytesRecvd: uint16, ghost k: nat) returns (bytes: uint16)
      requires cache.Valid() && CacheAgrees(cache.Contents, tx) && ChunksOk(tx)
      requires tx.base <= k < |tx.chunks| && s == SeqOf(k)
      ensures bytes == if s == acked then bytesRecvd else |tx.chunks[k]|
    {
      hide C.ArqCache.Valid;
      bytes := bytesRecvd;
      if s != acked {
        CopiesAreExact(tx.chunks, tx.base);
        var found, buf := cache.PeekForRetx(s);
        if !found {
          assert false;
        }
        bytes := |buf|;
      }
    }

    /** The cumulative walk from the base through the acknowledged chunk `n`; its window abort is never taken. */
    method FreeThrough(acked: byte, bytesRecvd: uint16, ghost n: nat)
      requires Valid() && tx.base <= n < |tx.chunks| && acked == SeqOf(n)
      modifies this`tx, this`lastNakSeq, arq.slots, cache.Repr
      ensures Tables() && tx == old(tx).(base := n + 1) && cache.window == old(cache.window)
      ensures arq.slots[..] == Freed(old(arq.slots[..]), old(tx.base), AckCounts(tx.chunks, old(tx.base), n, bytesRecvd))
      ensures lastNakSeq == if Among(old(tx.base), n + 1, old(lastNakSeq)) then 0xFF else old(lastNakSeq)
    {
      hide SlotsAgree, CacheAgrees, Freed, Among, SeqOf, NextSeq, C.ArqCache.Valid;
      var freed, s := 0, arq.gbnBase;
      ghost var b := tx.base;
      ghost var counts := AckCounts(tx.chunks, b, n, bytesRecvd);
      NoneFreed(arq.slots[..], b, counts);
      assert !Among(b, b, lastNakSeq) by { NotAmong(b, lastNakSeq); }
      while true
        invariant Tables() && cache.window == old(cache.window)
        invariant tx == old(tx).(base := b + freed) && tx.base <= n
        invariant arq.slots[..] == Freed(old(arq.slots[..]), b, counts[..freed])
        invariant s == SeqOf(tx.base)
        invariant lastNakSeq == if Among(b, b + freed, old(lastNakSeq)) then 0xFF else old(lastNakSeq)
        decreases n - tx.base
      {
        freed := freed + 1;
        if freed > WINDOW {
          assert false;
        }
        WalkStep(tx.base, n);
        AmongSnoc(b, tx.base, old(lastNakSeq));
        var bytes := BytesOf(s, acked, bytesRecvd, tx.base);
        FreeFirst(s, bytes);
        OneFreed(old(arq.slots[..]), b, counts, freed - 1);
        if s == acked {
          assert counts[..freed] == counts;
          return;
        }
        s := NextSeq(s);
      }
    }

    /** The walk, then the base behind it and a fresh retry ladder. */
    method AckThrough(acked: byte, bytesRecvd: uint16, ghost n: nat)
      requires Valid() && tx.base <= n < |tx.chunks| && acked == SeqOf(n)
      modifies this, arq, arq.slots, cache.Repr
      ensures Valid() && tx == old(tx).(base := n + 1)
      ensures arq.slots[..] == Freed(old(arq.slots[..]), old(tx.base), AckCounts(tx.chunks, old(tx.base), n, bytesRecvd))
      ensures lastNakSeq == if Among(old(tx.base), n + 1, old(lastNakSeq)) then 0xFF else old(lastNakSeq)
      ensures cache.window == old(cache.window) && txSeq == old(txSeq) && txSeqLap == old(txSeqLap)
      ensures retry == old(retry).(attempts := 0, backoffMs := 0, lastRetxBase := L.NO_BASE, keep := 0)
      ensures lastResend == old(lastResend).(base := L.NO_BASE)
    {
      hide SlotsAgree, CacheAgrees, Freed, AckCounts, Among, C.ArqCache.Valid;
      WalkStep(n, n);
      FreeThrough(acked, bytesRecvd, n);
      arq.gbnBase := NextSeq(acked);
      retry := retry.(attempts := 0, backoffMs := 0, lastRetxBase := L.NO_BASE, keep := 0);
      lastResend := lastResend.(base := L.NO_BASE);
      RefreshActive();
    }

    /** The window stays active while something is pending. */
    method RefreshActive()
      requires Tables()
      modifies arq`gbnActive
      ensures arq.gbnActive <==> tx.Pending() > 0
    {
      var pending := arq.PendingCount();
      arq.gbnActive := pending > 0;
    }

    /** The slot test and the window test that guard both feedback handlers. */
    method Locate(q: byte) returns (pending: bool, inWindow: bool)
      requires Valid()
      ensures pending == arq.IsPending(q) && (pending && inWindow <==> tx.Names(q).Some?)
      ensures pending ==> arq.gbnActive
      ensures inWindow <==> IdxOf(q, arq.gbnBase) >= 0
      ensures pending && inWindow ==>
        tx.base <= tx.Names(q).value < |tx.chunks| && SeqOf(tx.Names(q).value) == q
    {
      TestsAreExact(arq.slots[..], tx, q);
      pending := arq.IsPending(q);
      inWindow := IdxOf(q, arq.gbnBase) >= 0;
    }

    /**
      A cumulative ACK frees the chunk it names and everything before it; any other byte, such as a prior-lap
      sequence that shares a pending chunk's slot, moves nothing. The single-slot path is never taken.
     */
    method OnAck(acked: byte, bytesRecvd: uint16)
      requires Valid()
      modifies this, arq, arq.slots, cache.Repr
      ensures Valid() && tx == TxAck(old(tx), acked)
      ensures forall n: nat :: old(tx.base) <= n < |tx.chunks| && SeqOf(n) == acked ==>
        && tx == old(tx).(base := n + 1)
        && arq.slots[..] == Freed(old(arq.slots[..]), old(tx.base), AckCounts(tx.chunks, old(tx.base), n, bytesRecvd))
        && lastNakSeq == if Among(old(tx.base), n + 1, old(lastNakSeq)) then 0xFF else old(lastNakSeq)
      ensures (forall n: nat :: old(tx.base) <= n < |tx.chunks| ==> SeqOf(n) != acked) ==>
        && tx == old(tx) && arq.slots[..] == old(arq.slots[..])
        && lastNakSeq == if old(lastNakSeq) == acked && old(arq.IsPending(acked)) then 0xFF else old(lastNakSeq)
      ensures cache.window == old(cache.window) && txSeq == old(txSeq) && txSeqLap == old(txSeqLap)
      ensures if old(tx).Names(acked).None? then retry == old(retry) && lastResend == old(lastResend)
              else retry == old(retry).(attempts := 0, backoffMs := 0, lastRetxBase := L.NO_BASE, keep := 0)
                   && lastResend == old(lastResend).(base := L.NO_BASE)
    {
      hide SlotsAgree, CacheAgrees, Freed, AckCounts, SeqOf, Among, C.ArqCache.Valid;
      NamesOnly(tx, acked);
      AckedIsAmong(tx, acked);
      var isPending, inWindow := Locate(acked);
      if !isPending {
        return;
      }
      if lastNakSeq == acked {
        lastNakSeq := 0xFF;
      }
      if !arq.gbnActive {
        assert false;
      }
      if !inWindow {
        return;
      }
      AckThrough(acked, bytesRecvd, tx.Names(acked).value);
    }

    /** Hands one cached chunk to the wire; the cache-miss and zero-byte branches are never taken. */
    method RetxSeq(q: byte, ghost n: nat) returns (frame: DataFrame)
      requires cache.Valid() && CacheAgrees(cache.Contents, tx) && ChunksOk(tx)
      requires tx.base <= n < |tx.chunks| && q == SeqOf(n)
      ensures frame == tx.Frame(n)
    {
      CopiesAreExact(tx.chunks, tx.base);
      var hit := cache.SlotInUse(q);
      if !hit {
        assert false;
      }
      var found, buf := cache.PeekForRetx(q);
      if !found {
        assert false;
      }
      frame := DataFrame(q, buf);
    }

    /**
      Replays an in-order prefix of the window, byte for byte, as far as the burst cap and the TX ring allow.
      `room` is the number of worst-case frames the ring takes before it runs low.
     */
    method GbnResendWindow(now: uint32, fromRto: bool, room: nat) returns (frames: seq<DataFrame>)
      requires Valid()
      modifies this`lastResend, arq.slots
      ensures Valid()
      ensures frames == tx.Burst(L.BurstLen(cfg, tx.Pending(), room))
      ensures arq.slots[..] == Replayed(old(arq.slots[..]), tx.base, |frames|, now, fromRto)
      ensures arq.slots[SlotOf(tx.base)] == if fromRto && frames != []
              then L.Bumped(old(arq.slots[SlotOf(tx.base)]), now) else old(arq.slots[SlotOf(tx.base)])
      ensures lastResend == if tx.Pending() > 0 then L.Resend(SeqOf(tx.base), now) else old(lastResend)
    {
      hide C.ArqCache.Valid;
      frames := [];
      if !arq.gbnActive {
        return;
      }
      var pending := arq.PendingCount();
      var burst := ResendCap(pending, cfg.gbnResendBurstMax);
      lastResend := L.Resend(arq.gbnBase, now);
      assert tx.base + 0 == tx.base;
      ReplayKeepsTable(arq.slots[..], tx, L.Min(burst, room), now, fromRto);
      ReplayedAt(arq.slots[..], tx.base, L.Min(burst, room), now, fromRto, 0);
      frames := Replay(arq.gbnBase, burst, now, fromRto, room);
    }

    /** The burst loop: one cached frame after the other, until the ring runs low. */
    method Replay(base: byte, burst: nat, now: uint32, fromRto: bool, room: nat) returns (frames: seq<DataFrame>)
      requires arq.Valid() && cache.Valid() && CacheAgrees(cache.Contents, tx) && ChunksOk(tx)
      requires arq.slots !in cache.Repr
      requires base == SeqOf(tx.base) && burst <= tx.Pending()
      modifies arq.slots
      ensures frames == tx.Burst(L.Min(burst, room))
      ensures arq.slots[..] == Replayed(old(arq.slots[..]), tx.base, |frames|, now, fromRto)
    {
      hide C.ArqCache.Valid;
      frames := [];
      var s, i := base, 0;
      while i < burst
        invariant 0 <= i <= burst && i <= room
        invariant s == SeqOf(tx.base + i)
        invariant frames == tx.Burst(i)
        invariant arq.slots[..] == Replayed(old(arq.slots[..]), tx.base, i, now, fromRto)
      {
        if room <= i {
          break;
        }
        var frame := RetxSeq(s, tx.base + i);
        frames := frames + [frame];
        arq.ApplyRetx(s, now, fromRto);
        WalkStep(tx.base + i, tx.base + i);
        s := NextSeq(s);
        i := i + 1;
      }
    }

    /** One step of the NAK walk: frees the base and moves it to the next chunk of the window. */
    method StepBase(ghost n: nat)
      requires Valid() && tx.base < n < |tx.chunks|
      modifies this`tx, this`lastNakSeq, arq, arq.slots, cache.Repr
      ensures Valid() && tx == old(tx).(base := old(tx.base) + 1) && cache.window == old(cache.window)
      ensures arq.slots[..] == old(arq.slots[..])[SlotOf(old(tx.base)) := A.Acked(old(arq.slots[SlotOf(tx.base)]), 0)]
      ensures lastNakSeq == if old(lastNakSeq) == old(arq.gbnBase) then 0xFF else old(lastNakSeq)
    {
      hide SlotsAgree, CacheAgrees, ChunksOk, SeqOf, NextSeq, SlotOf, C.ArqCache.Valid;
      WalkStep(tx.base, n);
      FreeFirst(arq.gbnBase, 0);
      arq.gbnBase := NextSeq(arq.gbnBase);
    }

    /** The NAK walk frees everything before the missing chunk `n`; its window abort is never taken. */
    method FreeUpTo(missing: byte, ghost n: nat)
      requires Valid() && tx.base <= n < |tx.chunks| && missing == SeqOf(n)
      modifies this`tx, this`lastNakSeq, arq, arq.slots, cache.Repr
      ensures Valid() && tx == old(tx).(base := n) && cache.window == old(cache.window)
      ensures arq.slots[..] == Freed(old(arq.slots[..]), old(tx.base), Zeros(n - old(tx.base)))
      ensures old(lastNakSeq) == missing ==> lastNakSeq == missing
    {
      hide A.CountPending, Flags, Copies, Freed, C.ArqCache.Valid;
      var freed := 0;
      ghost var counts := Zeros(n - tx.base);
      NoneFreed(arq.slots[..], tx.base, counts);
      WalkStep(tx.base, n);
      while arq.gbnBase != missing
        invariant Valid() && cache.window == old(cache.window)
        invariant tx == old(tx).(base := old(tx.base) + freed) && tx.base <= n
        invariant arq.gbnBase == missing <==> tx.base == n
        invariant old(lastNakSeq) == missing ==> lastNakSeq == missing
        invariant 0 <= freed <= |counts| && arq.slots[..] == Freed(old(arq.slots[..]), old(tx.base), counts[..freed])
        decreases n - tx.base
      {
        freed := freed + 1;
        if IdxOf(arq.gbnBase, arq.gbnBase) < 0 || freed > WINDOW {
          assert false;
        }
        StepBase(n);
        OneFreed(old(arq.slots[..]), old(tx.base), counts, freed - 1);
        WalkStep(tx.base, n);
      }
      assert counts[..freed] == counts;
    }

    /** Answers a NAK for the base: counted always, resent unless the base is stuck or the loss is already being repaired. */
    method RepairBase(missing: byte, now: uint32, room: nat) returns (frames: seq<DataFrame>)
      requires Valid() && tx.Pending() > 0 && missing == arq.gbnBase
      modifies this`lastResend, arq.slots
      ensures Valid()
      ensures var slot, last := old(arq.slots[SlotOf(tx.base)]), old(lastResend);
        && arq.slots[..] == old(arq.slots[..])[SlotOf(tx.base) := L.NakSlot(cfg, missing, slot, last, now)]
        && if L.NakResends(cfg, missing, slot, last, now)
           then lastResend == L.Resend(missing, now) && frames == tx.Burst(L.BurstLen(cfg, tx.Pending(), room))
           else lastResend == last && frames == []
    {
      hide C.ArqCache.Valid;
      var i := BudgetIdx(missing);
      ghost var was := arq.slots[..];
      FlagsAreImage(tx.base, tx.Pending(), i);
      A.CountPendingUpdate(was, i, was[i].(nakCount := A.Saturate(was[i].nakCount)));
      A.CountPendingUpdate(was, i, was[i].(nakCount := A.Saturate(was[i].nakCount), sentAtMs := now));
      if arq.slots[i].nakCount > cfg.maxRetx && missing == arq.gbnBase {
        arq.NoteSuppressedNak(missing);
        return [];
      }
      if lastResend.base == missing && Elapsed(now, lastResend.atMs) < DedupWindowMs(cfg) {
        arq.NoteSuppressedNak(missing);
        return [];
      }
      arq.OnNaked(missing, now);
      frames := GbnResendWindow(now, false, room);
    }

    /**
      A NAK frees everything before the chunk it names and may replay the window from there; a byte that names
      no pending chunk changes nothing.
     */
    method OnNak(missing: byte, now: uint32, room: nat) returns (frames: seq<DataFrame>)
      requires Valid()
      modifies this, arq, arq.slots, cache.Repr
      ensures Valid() && tx == TxNak(old(tx), missing)
      ensures cache.window == old(cache.window) && txSeq == old(txSeq) && txSeqLap == old(txSeqLap) && retry == old(retry)
      ensures lastNakSeq == if old(arq.IsPending(missing)) then missing else old(lastNakSeq)
      ensures (forall n: nat :: old(tx.base) <= n < |tx.chunks| ==> SeqOf(n) != missing) ==>
        tx == old(tx) && arq.slots[..] == old(arq.slots[..]) && frames == [] && lastResend == old(lastResend)
      ensures forall n: nat :: old(tx.base) <= n < |tx.chunks| && SeqOf(n) == missing ==>
        var slots := Freed(old(arq.slots[..]), old(tx.base), Zeros(n - old(tx.base)));
        var slot, last := slots[SlotOf(n)], old(lastResend);
        && tx == old(tx).(base := n)
        && arq.slots[..] == slots[SlotOf(n) := L.NakSlot(cfg, missing, slot, last, now)]
        && if L.NakResends(cfg, missing, slot, last, now)
           then lastResend == L.Resend(missing, now) && frames == tx.Burst(L.BurstLen(cfg, tx.Pending(), room))
           else lastResend == last && frames == []
    {
      hide SlotsAgree, CacheAgrees, ChunksOk, Freed, SeqOf, C.ArqCache.Valid;
      NamesOnly(tx, missing);
      NothingFreed(arq.slots[..], tx.base);
      frames := [];
      var isPending, inWindow := Locate(missing);
      if !isPending {
        return;
      }
      lastNakSeq := missing;
      if arq.gbnActive && missing != arq.gbnBase && inWindow {
        FreeUpTo(missing, tx.Names(missing).value);
      }
      if arq.gbnActive && missing == arq.gbnBase {
        frames := RepairBase(missing, now, room);
      }
    }

    /** Records a chunk that has just left in both tables. */
    method Record(q: byte, payload: seq<byte>, baseSeq: byte, now: uint32)
      requires Tables() && tx.Pending() < WINDOW && 1 <= |payload| <= MAX_CHUNK && q == SeqOf(|tx.chunks|)
      modifies this`tx, arq.slots, cache.Repr
      ensures Tables() && tx == old(tx).(chunks := old(tx.chunks) + [payload]) && cache.window == old(cache.window)
      ensures arq.slots[..] ==
        old(arq.slots[..])[BudgetIdx(q) := A.Sent(old(arq.slots[BudgetIdx(q)]), q, baseSeq, now, txSeqLap)]
    {
      hide A.CountPending, Flags, Copies;
      TakeSlot(arq.slots[..], tx, payload, A.Sent(arq.slots[BudgetIdx(q)], q, baseSeq, now, txSeqLap));
      AddCached(cache.Contents, tx, payload);
      arq.OnSent(q, baseSeq, now, txSeqLap);
      cache.Insert(q, payload);
      tx := tx.(chunks := tx.chunks + [payload]);
    }

    /** The in-flight count read by the window gate. */
    method Inflight() returns (n: nat)
      requires Valid()
      ensures n == tx.Pending()
    {
      n := arq.PendingCount();
    }

    /** Inside the window the pool and the cache always have room: as much as the window has left, and more. */
    method PoolRoom() returns (room: int)
      requires Valid()
      ensures room >= BUDGET - tx.Pending()
    {
      room := cache.FreeRoom();
    }

    /** `hasRoom()` never refuses a chunk the window gate has admitted. */
    method PoolHasRoom() returns (b: bool)
      requires Valid() && tx.Pending() < WINDOW
      ensures b
    {
      b := cache.HasRoom();
    }

    /**
      Sends one new chunk when the window gate has admitted it. Inside the window the pool never refuses;
      only a full TX ring does, and then no sequence is used up.
     */
    method SendChunk(payload: seq<byte>, baseSeq: byte, now: uint32, ringHasRoom: bool) returns (sent: Option<DataFrame>)
      requires Valid() && tx.Pending() < WINDOW && 1 <= |payload| <= MAX_CHUNK
      modifies this, arq, arq.slots, cache.Repr
      ensures Valid() && cache.window == old(cache.window)
      ensures if ringHasRoom
              then tx == old(tx).(chunks := old(tx.chunks) + [payload]) && sent == Some(tx.Frame(|old(tx.chunks)|))
              else tx == old(tx) && sent == None
      ensures txSeqLap == (old(txSeqLap) + |tx.chunks| / 254 - |old(tx.chunks)| / 254) % 256
      ensures retry == if ringHasRoom && old(tx.Pending()) == 0
                       then old(retry).(attempts := 0, backoffMs := 0, lastRetxBase := L.NO_BASE, keep := 0) else old(retry)
      ensures lastResend == old(lastResend) && lastNakSeq == old(lastNakSeq)
      ensures sent.None? ==> arq.slots[..] == old(arq.slots[..])
      ensures sent.Some? ==>
        var i, q := SlotOf(|old(tx.chunks)|), SeqOf(|old(tx.chunks)|);
        arq.slots[..] == old(arq.slots[..])[i := A.ArqSlot(true, 0, 0, now, if baseSeq == 0xFF then q else baseSeq, txSeqLap,
                                                           old(arq.slots[i].bytesRecvd))]
    {
      hide SlotsAgree, CacheAgrees, ChunksOk, SeqOf, C.ArqCache.Valid;
      LapStep(|tx.chunks|, txSeqLap);
      var roomLeft := PoolHasRoom();
      if !roomLeft {
        assert false;
      }
      if !ringHasRoom {
        return None;
      }
      var q := txSeq;
      AdvanceSeq();
      Record(q, payload, baseSeq, now);
      sent := Some(DataFrame(q, payload));
    }

    /** Uses up one sequence, and opens the window at it when nothing was pending. */
    method AdvanceSeq()
      requires Valid()
      modifies this`txSeq, this`txSeqLap, this`retry, arq
      ensures txSeq == SeqOf(|tx.chunks| + 1)
      ensures txSeqLap == if old(txSeq) == SEQ_MAX then (old(txSeqLap) + 1) % 256 else old(txSeqLap)
      ensures retry == if tx.Pending() > 0 then old(retry)
                       else old(retry).(attempts := 0, backoffMs := 0, lastRetxBase := L.NO_BASE, keep := 0)
      ensures arq.gbnBase == SeqOf(tx.base) && arq.gbnActive && L.KeepBounded(retry)
    {
      hide SlotsAgree, CacheAgrees, ChunksOk, C.ArqCache.Valid;
      var q := txSeq;
      WalkStep(|tx.chunks|, |tx.chunks|);
      if txSeq == SEQ_MAX {
        txSeqLap := (txSeqLap + 1) % 256;
      }
      txSeq := NextSeq(txSeq);
      if !arq.gbnActive {
        assert tx.base == |tx.chunks|;
        arq.gbnBase := q;
        retry := retry.(attempts := 0, backoffMs := 0, lastRetxBase := L.NO_BASE, keep := 0);
        arq.gbnActive := true;
      }
    }

    /** An RTO round: lengthens the backoff, replays a prefix of the window and restarts the stuck clock. */
    method RetxBaseAndRearm(now: uint32, room: nat) returns (frames: seq<DataFrame>)
      requires Valid() && tx.Pending() > 0
      modifies this`retry, this`lastResend, arq.slots
      ensures Valid()
      ensures frames == tx.Burst(L.BurstLen(cfg, tx.Pending(), room))
      ensures retry == L.AfterRound(cfg, old(retry), SeqOf(tx.base), now)
      ensures lastResend == L.Resend(SeqOf(tx.base), now)
      ensures arq.slots[..] == Replayed(old(arq.slots[..]), tx.base, |frames|, now, true)
      ensures arq.slots[SlotOf(tx.base)] ==
        if frames != [] then L.Bumped(old(arq.slots[SlotOf(tx.base)]), now) else old(arq.slots[SlotOf(tx.base)])
    {
      hide C.ArqCache.Valid;
      var r := NextRound(arq.gbnBase, now);
      frames := GbnResendWindow(now, true, room);
      retry := r;
    }

    /** The retry fields of the round about to start: the backoff restarts when the base has moved since the last one. */
    method NextRound(base: byte, now: uint32) returns (r: L.State)
      requires L.KeepBounded(retry)
      ensures r == L.AfterRound(cfg, retry, base, now) && L.KeepBounded(r)
    {
      r := retry;
      if r.lastRetxBase != L.NO_BASE && r.lastRetxBase != base {
        r := r.(attempts := 0, backoffMs := 0, keep := 0);
      }
      r := r.(attempts := r.attempts + 1, lastRetxBase := base);
      var pause := DecideGbnBackoff(r.attempts, cfg.syncAckTimeoutMs, BackoffCapMs(cfg));
      r := r.(backoffMs := pause, stuckSinceMs := now);
    }

    /** Gives the base one more RTO without counting the rounds spent on it. */
    method RescueBase(now: uint32)
      requires Valid() && tx.Pending() > 0
      modifies arq.slots
      ensures Valid()
      ensures arq.slots[..] ==
        old(arq.slots[..])[SlotOf(tx.base) := old(arq.slots[SlotOf(tx.base)]).(retxCount := 0, sentAtMs := now)]
    {
      var i := BudgetIdx(arq.gbnBase);
      A.CountPendingUpdate(arq.slots[..], i, arq.slots[i].(retxCount := 0, sentAtMs := now));
      arq.RearmSlot(arq.gbnBase, now);
    }

    /** The storm-immune clock at the head of the sweep. */
    method ObserveTick(t: L.Tick)
      requires Valid()
      modifies this`retry
      ensures retry == L.Observe(cfg, old(retry), arq.gbnBase, t)
    {
      var priorOkTick := retry.lastOkTickMs;
      var stallFloor := t.okTickMs * 3 % 0x1_0000_0000;
      if stallFloor < BaudAwareRtoMs(cfg) {
        stallFloor := BaudAwareRtoMs(cfg);
      }
      retry := retry.(lastOkTickMs := t.now);
      if priorOkTick != 0 && Elapsed(t.now, priorOkTick) > stallFloor {
        retry := retry.(stuckSinceMs := t.now);
      }
      if t.appBacklog {
        if retry.appBacklog < L.APP_BACKLOG_CAP {
          retry := retry.(stuckSinceMs := t.now, appBacklog := retry.appBacklog + 1);
        }
      } else {
        retry := retry.(appBacklog := 0);
      }
      if arq.gbnBase != retry.stuckTracked {
        retry := retry.(stuckTracked := arq.gbnBase, stuckSinceMs := t.now, appBacklog := 0);
      }
    }

    /** Carries out a verdict on the base: a round, one more chance, or the end of the ladder. */
    method ActOn(t: L.Tick, verdict: L.Verdict) returns (frames: seq<DataFrame>)
      requires Valid() && t.pending == tx.Pending() > 0 && (verdict == L.Keep ==> retry.keep < L.KEEP_CAP)
      modifies this`retry, this`lastResend, arq.slots
      ensures Valid()
      ensures (retry, arq.slots[SlotOf(tx.base)])
        == L.Applied(cfg, old(retry), SeqOf(tx.base), old(arq.slots[SlotOf(tx.base)]), t, verdict)
      ensures arq.slots[..] ==
        if verdict == L.Round then Replayed(old(arq.slots[..]), tx.base, |frames|, t.now, true)
        else old(arq.slots[..])[SlotOf(tx.base) := arq.slots[SlotOf(tx.base)]]
      ensures lastResend == if verdict == L.Round then L.Resend(SeqOf(tx.base), t.now) else old(lastResend)
      ensures frames == if verdict == L.Round then tx.Burst(L.BurstLen(cfg, t.pending, t.room)) else []
    {
      hide SlotsAgree, CacheAgrees, ChunksOk, L.AfterRound, C.ArqCache.Valid;
      frames := [];
      match verdict
      case Quiet =>
      case Round => frames := RetxBaseAndRearm(t.now, t.room);
      case Keep =>
        RescueBase(t.now);
        retry := retry.(keep := retry.keep + 1, attempts := 0, backoffMs := 0, lastRetxBase := L.NO_BASE);
      case Reset =>
        retry := retry.(keep := 0);
    }

    /**
      The ladder's part of an OK tick. It never moves the window; it climbs by exactly one step of `LadderTick` and
      puts an in-order prefix on the wire when that step is a round.
     */
    method ClimbLadder(t: L.Tick) returns (verdict: L.Verdict, frames: seq<DataFrame>)
      requires Valid() && t.pending == tx.Pending()
      modifies this`retry, this`lastResend, arq.slots
      ensures Valid()
      ensures tx.Pending() == 0 ==> verdict == L.Quiet && retry == old(retry) && arq.slots[..] == old(arq.slots[..])
      ensures verdict == L.Round ==> arq.slots[..] == Replayed(old(arq.slots[..]), tx.base, |frames|, t.now, true)
      ensures verdict != L.Round ==>
        arq.slots[..] == old(arq.slots[..])[SlotOf(tx.base) := arq.slots[SlotOf(tx.base)]]
      ensures lastResend == if verdict == L.Round then L.Resend(SeqOf(tx.base), t.now) else old(lastResend)
      ensures tx.Pending() > 0 ==>
        (retry, arq.slots[SlotOf(tx.base)], verdict)
          == L.LadderTick(cfg, old(retry), SeqOf(tx.base), old(arq.slots[SlotOf(tx.base)]), t)
      ensures frames == if verdict == L.Round then tx.Burst(L.BurstLen(cfg, t.pending, t.room)) else []
    {
      hide SlotsAgree, CacheAgrees, ChunksOk, L.Applied, L.BurstLen, C.ArqCache.Valid;
      if !arq.gbnActive {
        return L.Quiet, [];
      }
      ObserveTick(t);
      L.ObserveKeeps(cfg, old(retry), arq.gbnBase, t);
      verdict := L.Decide(cfg, retry, arq.slots[BudgetIdx(arq.gbnBase)], t);
      frames := ActOn(t, verdict);
    }

    /** The part of a reset that ends an OK session: nothing pending, numbered from zero. */
    method ResetSession()
      requires arq.slots !in cache.Repr && arq.Valid()
      modifies this, arq, arq.slots
      ensures arq.Valid() && SlotsAgree(arq.slots[..], tx) && tx == Tx(0, [])
      ensures txSeq == 0 && arq.gbnBase == 0 && !arq.gbnActive && txSeqLap == (old(txSeqLap) + 1) % 256
      ensures retry == L.State(0, 0, 0, 0xFF, old(retry.lastOkTickMs), 0, 0xFF, old(retry.appBacklog))
      ensures lastResend == L.Resend(0xFF, 0) && lastNakSeq == 0xFF
      ensures forall i :: 0 <= i < |arq.slots[..]| ==> arq.slots[i] == A.ArqSlot(false, 0, 0, 0, 0, 0, 0)
    {
      arq.ClearAll();
      A.CountPendingNone(arq.slots[..]);
      txSeq, txSeqLap := 0, (txSeqLap + 1) % 256;
      retry := L.State(0, 0, 0, L.NO_BASE, retry.lastOkTickMs, 0, L.NO_BASE, retry.appBacklog);
      lastResend := L.Resend(L.NO_BASE, 0);
      lastNakSeq := 0xFF;
      tx := Tx(0, []);
    }

    /**
      The ARQ part of a link reset. The cache is always emptied, the slot table and the numbering only when an OK
      session ends: the tables agree afterwards if and only if it did or nothing was pending, which a node that is
      still sweeping ensures.
     */
    method Reset(endedOkSession: bool)
      requires Valid()
      modifies this, arq, arq.slots, cache.Repr
      ensures Valid() <==> endedOkSession || old(tx.Pending()) == 0
      ensures tx == if endedOkSession then Tx(0, []) else old(tx)
      ensures !endedOkSession ==>
        && arq.slots[..] == old(arq.slots[..]) && txSeqLap == old(txSeqLap) && retry == old(retry)
        && lastResend == old(lastResend) && lastNakSeq == old(lastNakSeq)
      ensures endedOkSession ==>
        && (forall i :: 0 <= i < |arq.slots[..]| ==> arq.slots[i] == A.ArqSlot(false, 0, 0, 0, 0, 0, 0))
        && retry == L.State(0, 0, 0, 0xFF, old(retry.lastOkTickMs), 0, 0xFF, old(retry.appBacklog))
        && txSeqLap == (old(txSeqLap) + 1) % 256 && lastResend == L.Resend(0xFF, 0) && lastNakSeq == 0xFF
      ensures cache.Valid() && cache.Contents == map[] && cache.window == old(cache.window)
    {
      if endedOkSession {
        ResetSession();
      }
      cache.ClearAll();
    }

    /**
      One OK tick of the retransmission driver: one step of the ladder, and at its end the reset that gives the session
      up. Short of that the window does not move; the reset leaves nothing pending and both tables empty.
     */
    method SweepRetx(t: L.Tick) returns (verdict: L.Verdict, frames: seq<DataFrame>)
      requires Valid() && t.pending == tx.Pending()
      modifies this, arq, arq.slots, cache.Repr
      ensures Valid() && cache.window == old(cache.window)
      ensures old(tx.Pending()) == 0 ==> verdict == L.Quiet && retry == old(retry)
      ensures old(tx.Pending()) > 0 ==>
        verdict == L.LadderTick(cfg, old(retry), SeqOf(old(tx.base)), old(arq.slots[SlotOf(tx.base)]), t).2
      ensures frames == if verdict == L.Round then old(tx).Burst(L.BurstLen(cfg, t.pending, t.room)) else []
      ensures verdict == L.Reset ==> !(L.Heard(cfg, t) && old(retry.keep) < 3)
      ensures verdict == L.Keep ==> L.Heard(cfg, t) && old(retry.keep) < 3
      ensures old(tx.Pending()) > 0 && L.Expired(cfg, old(arq.slots[SlotOf(tx.base)]), t) ==>
        (verdict == L.Round <==> old(arq.slots[SlotOf(tx.base)]).retxCount < cfg.maxRetx)
      ensures if verdict == L.Reset then tx == Tx(0, []) && cache.Contents == map[] else tx == old(tx)
      ensures verdict == L.Round ==> arq.slots[..] == Replayed(old(arq.slots[..]), tx.base, |frames|, t.now, true)
      ensures verdict != L.Reset && tx.Pending() > 0 ==>
        (retry, arq.slots[SlotOf(tx.base)], verdict)
          == L.LadderTick(cfg, old(retry), SeqOf(tx.base), old(arq.slots[SlotOf(tx.base)]), t)
    {
      hide SlotsAgree, CacheAgrees, ChunksOk, Replayed, L.LadderTick, L.BurstLen, C.ArqCache.Valid;
      L.VerdictExact(cfg, retry, SeqOf(tx.base), arq.slots[SlotOf(tx.base)], t);
      verdict, frames := ClimbLadder(t);
      if verdict == L.Reset {
        Reset(true);
      }
    }
  }
}
