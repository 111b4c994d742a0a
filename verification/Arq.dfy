/**
  The sender's per-slot bookkeeping. The source keeps parallel arrays indexed by `seq % 64`; here they are one
  array of records.
 */
module Arq {
  import opened Wire
  import opened SeqSpace

  const NO_BASE: byte := 0xFF

  /**
    RTO retransmissions and NAKs are counted apart, each saturating at 255. The last three fields serve the byte
    reports: the sequence and lap of the message's first chunk, and what the peer acknowledged.
   */
  datatype ArqSlot = ArqSlot(pending: bool, retxCount: byte, nakCount: byte, sentAtMs: uint32,
                             baseSeq: byte, baseLap: byte, bytesRecvd: uint16)

  const CLEAR_SLOT := ArqSlot(false, 0, 0, 0, 0, 0, 0)

  /** The slot of a chunk just sent; the byte count of the slot's last chunk stays until the ACK. */
  function Sent(s: ArqSlot, q: byte, baseSeq: byte, nowMs: uint32, baseLap: byte): ArqSlot {
    ArqSlot(true, 0, 0, nowMs, if baseSeq == NO_BASE then q else baseSeq, baseLap, s.bytesRecvd)
  }

  /** The slot of a chunk acknowledged or freed. */
  function Acked(s: ArqSlot, bytes: uint16): ArqSlot {
    s.(pending := false, retxCount := 0, nakCount := 0, bytesRecvd := bytes)
  }

  datatype ArqAction = Hold | Retx | Drop

  function DecideArqSlot(ageMs: uint32, retxCount: byte, ackRtoMs: uint32, maxRetx: byte): ArqAction {
    if ageMs < ackRtoMs then Hold
    else if retxCount >= maxRetx then Drop
    else Retx
  }

  function Saturate(n: byte): byte {
    if n < 0xFF then n + 1 else n
  }

  function CountPending(s: seq<ArqSlot>): (n: nat)
    ensures n <= |s|
  {
    if s == [] then 0 else CountPending(s[..|s| - 1]) + (if s[|s| - 1].pending then 1 else 0)
  }

  lemma {:induction false} CountPendingUpdate(s: seq<ArqSlot>, i: nat, v: ArqSlot)
    requires i < |s|
    ensures CountPending(s[i := v]) == CountPending(s) + (if v.pending then 1 else 0) - (if s[i].pending then 1 else 0)
  {
    var k := |s| - 1;
    if i < k {
      assert s[i := v][..k] == s[..k][i := v];
      CountPendingUpdate(s[..k], i, v);
    } else {
      assert s[i := v][..k] == s[..k];
    }
  }

  lemma {:induction false} CountPendingNone(s: seq<ArqSlot>)
    requires forall i :: 0 <= i < |s| ==> !s[i].pending
    ensures CountPending(s) == 0
  {
    if s != [] {
      CountPendingNone(s[..|s| - 1]);
    }
  }

  class LinkArq {
    const slots: array<ArqSlot>
    var gbnBase: byte
    var gbnActive: bool
    var clearAllEpoch: uint32

    ghost predicate Valid() {
      slots.Length == BUDGET
    }

    constructor ()
      ensures Valid() && fresh(slots) && gbnBase == 0 && !gbnActive && clearAllEpoch == 0
      ensures forall i :: 0 <= i < BUDGET ==> slots[i] == CLEAR_SLOT
    {
      slots := new ArqSlot[BUDGET](_ => CLEAR_SLOT);
      gbnBase, gbnActive, clearAllEpoch := 0, false, 0;
    }

    predicate IsPending(q: byte)
      requires Valid()
      reads slots
    {
      slots[BudgetIdx(q)].pending
    }

    method OnSent(q: byte, baseSeq: byte, nowMs: uint32, baseLap: byte)
      requires Valid()
      modifies slots
      ensures slots[..] == old(slots[..])[BudgetIdx(q) := Sent(old(slots[BudgetIdx(q)]), q, baseSeq, nowMs, baseLap)]
    {
      var i := BudgetIdx(q);
      slots[i] := slots[i].(pending := true, retxCount := 0, nakCount := 0, sentAtMs := nowMs);
      slots[i] := slots[i].(baseSeq := if baseSeq == NO_BASE then q else baseSeq, baseLap := baseLap);
    }

    method OnAcked(q: byte, bytesRecvd: uint16)
      requires Valid()
      modifies slots
      ensures slots[..] == old(slots[..])[BudgetIdx(q) := Acked(old(slots[BudgetIdx(q)]), bytesRecvd)]
    {
      var i := BudgetIdx(q);
      slots[i] := slots[i].(bytesRecvd := bytesRecvd, pending := false, retxCount := 0, nakCount := 0);
    }

    /** Gives the slot one more RTO; pending state and NAK evidence survive. */
    method RearmSlot(q: byte, nowMs: uint32)
      requires Valid()
      modifies slots
      ensures slots[..] == old(slots[..])[BudgetIdx(q) := old(slots[BudgetIdx(q)]).(retxCount := 0, sentAtMs := nowMs)]
    {
      var i := BudgetIdx(q);
      slots[i] := slots[i].(retxCount := 0, sentAtMs := nowMs);
    }

    method NoteSuppressedNak(q: byte)
      requires Valid()
      modifies slots
      ensures slots[..] == if !old(IsPending(q)) then old(slots[..]) else
        old(slots[..])[BudgetIdx(q) := old(slots[BudgetIdx(q)]).(nakCount := Saturate(old(slots[BudgetIdx(q)].nakCount)))]
    {
      if !IsPending(q) {
        return;
      }
      var i := BudgetIdx(q);
      if slots[i].nakCount < 0xFF {
        slots[i] := slots[i].(nakCount := slots[i].nakCount + 1);
      }
    }

    method OnNaked(q: byte, nowMs: uint32)
      requires Valid()
      modifies slots
      ensures slots[..] == if !old(IsPending(q)) then old(slots[..]) else
        old(slots[..])[BudgetIdx(q) := old(slots[BudgetIdx(q)]).(
          nakCount := Saturate(old(slots[BudgetIdx(q)].nakCount)), sentAtMs := nowMs)]
    {
      if !IsPending(q) {
        return;
      }
      var i := BudgetIdx(q);
      slots[i] := slots[i].(sentAtMs := nowMs);
      if slots[i].nakCount < 0xFF {
        slots[i] := slots[i].(nakCount := slots[i].nakCount + 1);
      }
    }

    /** Only an RTO-driven retransmission counts toward the drop verdict and restarts the RTO clock. */
    method ApplyRetx(q: byte, nowMs: uint32, rtoDriven: bool)
      requires Valid()
      modifies slots
      ensures slots[..] == if !rtoDriven then old(slots[..]) else
        old(slots[..])[BudgetIdx(q) := old(slots[BudgetIdx(q)]).(
          retxCount := Saturate(old(slots[BudgetIdx(q)].retxCount)), sentAtMs := nowMs)]
    {
      var i := BudgetIdx(q);
      if rtoDriven {
        if slots[i].retxCount < 0xFF {
          slots[i] := slots[i].(retxCount := slots[i].retxCount + 1);
        }
      }
      if rtoDriven {
        slots[i] := slots[i].(sentAtMs := nowMs);
      }
    }

    method PendingCount() returns (n: nat)
      requires Valid()
      ensures n == CountPending(slots[..])
    {
      n := 0;
      var i := 0;
      while i < BUDGET
        invariant 0 <= i <= BUDGET
        invariant n == CountPending(slots[..i])
      {
        assert slots[..i + 1][..i] == slots[..i];
        if slots[i].pending {
          n := n + 1;
        }
        i := i + 1;
      }
      assert slots[..i] == slots[..];
    }

    method ClearAll()
      requires Valid()
      modifies this, slots
      ensures gbnBase == 0 && !gbnActive && clearAllEpoch == (old(clearAllEpoch) + 1) % 0x1_0000_0000
      ensures forall i :: 0 <= i < BUDGET ==> slots[i] == CLEAR_SLOT
    {
      forall i | 0 <= i < BUDGET {
        slots[i] := CLEAR_SLOT;
      }
      gbnBase, gbnActive, clearAllEpoch := 0, false, (clearAllEpoch + 1) % 0x1_0000_0000;
    }
  }
}
