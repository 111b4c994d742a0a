/**
  The receiving half of the link: the in-order cursor, the hold that stands while the app buffer is full, and
  the cursor that cuts messages out of the app buffer. Proved against `GoBackN.RxPayload` and `Messages.Recv`.
 */
module ReceiverSide {
  import opened Wire
  import opened SeqSpace
  import opened Timing
  import opened GoBackN
  import opened Messages
  import Crc

  const HOLD_NAK_LIVENESS_MS: uint32 := 1000

  /** How long a partial message may wait for its rest: the longest repair the retry ladder can take. */
  function StaleLimitMs(cfg: RetryConfig): uint32 {
    var syncFloor := 2 * cfg.syncAckTimeoutMs % 0x1_0000_0000;
    var asyncFloor := (cfg.maxRetx * BaudAwareRtoMs(cfg) + BackoffCapMs(cfg)) % 0x1_0000_0000;
    if asyncFloor > syncFloor then asyncFloor else syncFloor
  }

  /** A partial message is not abandoned before the sender's whole retry ladder could have completed it. */
  lemma StaleOutlastsLadder(cfg: RetryConfig)
    requires 8 * cfg.syncAckTimeoutMs < 0x1_0000_0000
    requires cfg.maxRetx * BaudAwareRtoMs(cfg) + BackoffCapMs(cfg) < 0x1_0000_0000
    ensures StaleLimitMs(cfg) >= 2 * cfg.syncAckTimeoutMs
    ensures StaleLimitMs(cfg) >= cfg.maxRetx * BaudAwareRtoMs(cfg) + 8 * cfg.syncAckTimeoutMs
  {
    hide BaudAwareRtoMs;
    var repair: nat := cfg.maxRetx * BaudAwareRtoMs(cfg) + BackoffCapMs(cfg);
    Unwrapped(repair);
    Unwrapped(2 * cfg.syncAckTimeoutMs);
    Unwrapped(8 * cfg.syncAckTimeoutMs);
  }

  lemma Unwrapped(x: nat)
    requires x < 0x1_0000_0000
    ensures x % 0x1_0000_0000 == x
  {
  }

  /** Around the cursor the modular classification is the true order. */
  lemma TrueClasses(next: nat)
    ensures forall n: nat :: n <= next + 126 && next <= n + 127 ==>
      ClassifyGap(SeqOf(n), CursorOf(next), true).0 == TrueClass(n, next)
    ensures forall n: nat :: n < next <= n + 127 ==>
      (GenuineDup(ClassifyGap(SeqOf(n), CursorOf(next), true).1) <==> next <= n + 65)
  {
    hide SeqOf, CursorOf, ClassifyGap, GenuineDup;
    forall n: nat | n <= next + 126 && next <= n + 127
      ensures ClassifyGap(SeqOf(n), CursorOf(next), true).0 == TrueClass(n, next)
      ensures n < next ==> (GenuineDup(ClassifyGap(SeqOf(n), CursorOf(next), true).1) <==> next <= n + 65)
    {
      ClassifyExact(n, next);
    }
  }

  /** The awaited sequence is the one behind the cursor, which wraps round at 0 alone. */
  lemma CursorBehind(next: nat)
    ensures SeqOf(next) == 0 <==> CursorOf(next) == SEQ_MAX
    ensures SeqOf(next) != 0 ==> CursorOf(next) == SeqOf(next) - 1
  {
    CursorOfNext(next);
  }

  class Receiver {
    const cfg: RetryConfig
    const cap: nat
    const maxMsg: nat

    var rxSeq: byte
    var rxSeqSet: bool
    var rxSeqWrap: byte
    var holdNakActive: bool
    var holdNakSeq: byte
    var holdNakWrap: byte
    var holdNakFreeAtSet: nat
    var holdNakLastMs: uint32
    var appBuf: seq<byte>
    var msgRx: Cursor
    var msgRxStartedMs: uint32

    ghost var pushed: seq<seq<byte>>
    ghost var taken: seq<byte>

    ghost function View(): Rx
      reads this
    {
      Rx(pushed, taken, appBuf, cap)
    }

    /** A seeded session, its cursor the image of the number of chunks accepted. */
    ghost predicate Valid()
      reads this
    {
      && rxSeqSet && rxSeq == CursorOf(|pushed|) && |appBuf| <= cap
      && (msgRx.Between? ==> msgRxStartedMs == 0)
    }

    /** A standing hold is about the very next chunk, on this lap of the sequence space. */
    ghost predicate HoldOk()
      reads this
    {
      holdNakActive ==> holdNakSeq == SeqOf(|pushed|) && holdNakWrap == rxSeqWrap
    }

    predicate Held(q: byte)
      reads this
    {
      holdNakActive && holdNakSeq == q && holdNakWrap == rxSeqWrap
    }

    /** The first session of a link: seeded so that chunk 0 is expected. */
    constructor (cfg: RetryConfig, cap: nat, maxMsg: nat)
      ensures Valid() && HoldOk() && View() == Rx([], [], [], cap) && msgRx == Between
      ensures this.cfg == cfg && this.cap == cap && this.maxMsg == maxMsg
    {
      this.cfg, this.cap, this.maxMsg := cfg, cap, maxMsg;
      rxSeq, rxSeqSet, rxSeqWrap := SEQ_MAX, true, 0;
      holdNakActive, holdNakSeq, holdNakWrap, holdNakFreeAtSet, holdNakLastMs := false, 0xFF, 0, 0, 0;
      appBuf, msgRx, msgRxStartedMs := [], Between, 0;
      pushed, taken := [], [];
    }

    /** `reorderExpectedSeq()`. */
    function Expected(): (q: byte)
      requires Valid()
      reads this
      ensures q == SeqOf(|pushed|)
    {
      CursorOfNext(|pushed|);
      NextSeq(rxSeq)
    }

    /**
      One data frame. Whatever the specification would accept is accepted and whatever it would drop is dropped;
      the only answers withheld are NAKs for a chunk whose hold already stands, and the NAK for the held chunk
      itself is repeated as soon as the app buffer has drained or a second has passed.
     */
    method OnPayload(cobsSeq: byte, b: seq<byte>, now: uint32) returns (answer: Option<Feedback>)
      requires Valid()
      modifies this
      ensures Valid() && (b != [] && old(HoldOk()) ==> HoldOk())
      ensures View() == RxPayload(old(View()), cobsSeq, b).0
      ensures var spec, exp := RxPayload(old(View()), cobsSeq, b).1, SeqOf(|old(pushed)|);
        answer == if spec == Some(Nak(exp)) && old(Held(exp))
                     && (cobsSeq != exp
                         || (cap - |appBuf| <= old(holdNakFreeAtSet)
                             && Elapsed(now, old(holdNakLastMs)) < HOLD_NAK_LIVENESS_MS))
                  then None else spec
      ensures forall n: nat :: |old(pushed)| < n <= |old(pushed)| + 126 && SeqOf(n) == cobsSeq ==>
        View() == old(View()) && answer == if old(Held(SeqOf(|pushed|))) then None else Some(Nak(SeqOf(|old(pushed)|)))
      ensures forall n: nat :: n < |old(pushed)| <= n + 127 && SeqOf(n) == cobsSeq ==>
        View() == old(View()) && answer == if |old(pushed)| <= n + 65 then Some(Ack(cobsSeq, |b| % 0x1_0000)) else None
      ensures cobsSeq == SeqOf(|old(pushed)|) && b == [] ==>
        pushed == old(pushed) + [b] && appBuf == old(appBuf) && taken == old(taken) && answer == None
      ensures cobsSeq == SeqOf(|old(pushed)|) && b != [] && |old(appBuf)| + |b| <= cap ==>
        && pushed == old(pushed) + [b] && appBuf == old(appBuf) + b && taken == old(taken)
        && answer == Some(Ack(cobsSeq, |b| % 0x1_0000))
      ensures cobsSeq == SeqOf(|old(pushed)|) && |old(appBuf)| + |b| > cap && b != [] ==>
        View() == old(View()) && (!old(Held(cobsSeq)) ==> answer == Some(Nak(cobsSeq)))
      ensures rxSeqWrap ==
        if b != [] && pushed != old(pushed) && cobsSeq == 0 then (old(rxSeqWrap) + 1) % 256 else old(rxSeqWrap)
      ensures msgRx == old(msgRx) && msgRxStartedMs == old(msgRxStartedMs)
    {
      hide SeqOf, CursorOf;
      TrueClasses(|pushed|);
      CursorOfNext(|pushed|);
      var (cls, diff) := ClassifyGap(cobsSeq, rxSeq, rxSeqSet);
      if cls == Stale {
        var back := SEQ_SPACE - diff;
        var genuineDup := diff == 0 || back <= 2 * WINDOW;
        if !genuineDup {
          return None;
        }
        return Some(Ack(cobsSeq, |b| % 0x1_0000));
      }
      if cls == Gap {
        var exp := Expected();
        if Held(exp) {
          return None;
        }
        return Some(Nak(exp));
      }
      if |b| == 0 {
        rxSeq, rxSeqSet, pushed := cobsSeq, true, pushed + [b];
        return None;
      }
      if cap - |appBuf| < |b| {
        answer := Hold(cobsSeq, now);
        return;
      }
      Accept(cobsSeq, b);
      answer := Some(Ack(cobsSeq, |b| % 0x1_0000));
    }

    /** Commits the awaited chunk: its bytes, the end of its hold, the lap count and the cursor. */
    method Accept(cobsSeq: byte, b: seq<byte>)
      requires Valid() && cobsSeq == SeqOf(|pushed|) && |appBuf| + |b| <= cap
      modifies this
      ensures Valid() && (old(HoldOk()) ==> HoldOk())
      ensures View() == old(View()).(pushed := old(pushed) + [b], buf := old(appBuf) + b)
      ensures rxSeqWrap == if cobsSeq == 0 then (old(rxSeqWrap) + 1) % 256 else old(rxSeqWrap)
      ensures msgRx == old(msgRx) && msgRxStartedMs == old(msgRxStartedMs)
    {
      hide CursorOf, SeqOf, NextSeq;
      CursorOfNext(|pushed|);
      CursorBehind(|pushed|);
      appBuf := appBuf + b;
      if Held(cobsSeq) {
        holdNakActive, holdNakSeq, holdNakFreeAtSet, holdNakLastMs := false, 0xFF, 0, 0;
      }
      if rxSeqSet && cobsSeq < rxSeq && rxSeq - cobsSeq > SEQ_SPACE / 2 {
        rxSeqWrap := (rxSeqWrap + 1) % 256;
      }
      rxSeq, rxSeqSet, pushed := cobsSeq, true, pushed + [b];
    }

    /** The app buffer cannot take the whole chunk: NAK it on a fresh hold, on drain progress, and once a second. */
    method Hold(cobsSeq: byte, now: uint32) returns (answer: Option<Feedback>)
      requires Valid()
      modifies this`holdNakActive, this`holdNakSeq, this`holdNakWrap, this`holdNakFreeAtSet, this`holdNakLastMs
      ensures Held(cobsSeq)
      ensures answer == if old(Held(cobsSeq)) && cap - |appBuf| <= old(holdNakFreeAtSet)
                           && Elapsed(now, old(holdNakLastMs)) < HOLD_NAK_LIVENESS_MS
                        then None else Some(Nak(cobsSeq))
      ensures answer.Some? ==> holdNakLastMs == now
      ensures answer.None? ==> holdNakLastMs == old(holdNakLastMs) && holdNakFreeAtSet == old(holdNakFreeAtSet)
    {
      var freshHold := !holdNakActive || holdNakSeq != cobsSeq || holdNakWrap != rxSeqWrap;
      var liveness := !freshHold && Elapsed(now, holdNakLastMs) >= HOLD_NAK_LIVENESS_MS;
      answer := None;
      if freshHold {
        holdNakActive, holdNakSeq, holdNakWrap := true, cobsSeq, rxSeqWrap;
        holdNakFreeAtSet, holdNakLastMs := cap - |appBuf|, now;
        answer := Some(Nak(cobsSeq));
      } else if cap - |appBuf| > holdNakFreeAtSet {
        holdNakFreeAtSet, holdNakLastMs := cap - |appBuf|, now;
        answer := Some(Nak(cobsSeq));
      } else if liveness {
        holdNakLastMs := now;
        answer := Some(Nak(cobsSeq));
      }
    }

    // ----- the message cursor -----

    /** Takes the next `n` bytes out of the app buffer. */
    method ReadStream(n: nat) returns (b: seq<byte>)
      requires n <= |appBuf|
      modifies this`appBuf, this`taken
      ensures b == old(appBuf[..n]) && appBuf == old(appBuf[n..]) && taken == old(taken) + b
    {
      b := appBuf[..n];
      appBuf, taken := appBuf[n..], taken + b;
    }

    /** Rescans what is buffered for the next believable header; returns how many bytes went, or -1 for none. */
    method FindMsgHeaderResync() returns (dropped: int)
      modifies this`appBuf
      ensures appBuf == Resynced(old(appBuf), maxMsg)
      ensures if |old(appBuf)| < MSG_HDR then dropped == -1 else dropped == |old(appBuf)| - |appBuf|
    {
      var avail := |appBuf|;
      if avail < MSG_HDR {
        return -1;
      }
      var maxScan := maxMsg + MSG_HDR;
      var scan := if maxScan > 0 && maxScan < avail then maxScan else avail;
      var snapLen := scan + MSG_HDR;
      if snapLen > avail {
        snapLen := avail;
      }
      var snap := appBuf[..snapLen];
      appBuf := appBuf[snapLen..];
      var d := MsgResyncScan(snap, maxMsg);
      if d.Some? {
        appBuf := appBuf + snap[d.value..];
        return d.value;
      }
      appBuf := [];
      dropped := avail;
    }

    /** Throws away the body of a message the caller has no room for, a 256-byte sink at a time. */
    method SkipBody(len: nat)
      requires len <= |appBuf|
      modifies this`appBuf, this`taken
      ensures appBuf == old(appBuf[len..]) && taken == old(taken) + old(appBuf[..len])
    {
      var left := len;
      while left > 0
        invariant 0 <= left <= len
        invariant appBuf == old(appBuf)[len - left..]
        invariant taken == old(taken) + old(appBuf)[..len - left]
      {
        var n := if left < 256 then left else 256;
        var sink := ReadStream(n);
        assert old(appBuf)[..len - left + n] == old(appBuf)[..len - left] + sink;
        left := left - n;
      }
    }

    /**
      One `recvMsg` call. A partial message older than the stale limit is abandoned and the buffer rescanned;
      any other call does exactly what `Messages.Recv` says, and then no byte is lost between the two: what was
      taken is what left the buffer.
     */
    method RecvMsg(maxLen: nat, now: uint32) returns (r: RecvResult)
      requires Valid()
      modifies this`appBuf, this`taken, this`msgRx, this`msgRxStartedMs
      ensures Valid() && (old(HoldOk()) ==> HoldOk())
      ensures if old(msgRx).In? && old(msgRxStartedMs) != 0 && Elapsed(now, old(msgRxStartedMs)) > StaleLimitMs(cfg)
              then r == Rejected && msgRx == Between && appBuf == Resynced(old(appBuf), maxMsg)
              else (msgRx, appBuf, r) == Recv(old(msgRx), old(appBuf), maxMsg, maxLen)
                   && (Begin(old(msgRx), old(appBuf), maxMsg).Some? ==> taken + appBuf == old(taken) + old(appBuf))
      ensures msgRxStartedMs == if msgRx.Between? then 0 else if old(msgRx).In? then old(msgRxStartedMs) else now
    {
      if msgRx.In? && msgRxStartedMs != 0 {
        var staleMs := Elapsed(now, msgRxStartedMs);
        if staleMs > StaleLimitMs(cfg) {
          msgRx, msgRxStartedMs := Between, 0;
          var drop := FindMsgHeaderResync();
          return Rejected;
        }
      }
      if msgRx.Between? {
        if |appBuf| < MSG_HDR {
          return Nothing;
        }
        var h := ReadStream(MSG_HDR);
        if HdrLen(h) == 0 || HdrLen(h) > maxMsg {
          var drop := FindMsgHeaderResync();
          return Rejected;
        }
        msgRx, msgRxStartedMs := In(HdrLen(h), HdrCrc(h)), now;
      }
      r := FinishMsg(maxLen);
    }

    /** Delivers, or throws away, the message in progress once its body is complete. */
    method FinishMsg(maxLen: nat) returns (r: RecvResult)
      requires Valid() && msgRx.In?
      modifies this`appBuf, this`taken, this`msgRx, this`msgRxStartedMs
      ensures Valid()
      ensures (msgRx, appBuf, r) == Finish(old(msgRx), old(appBuf), maxLen)
      ensures taken + appBuf == old(taken) + old(appBuf)
      ensures msgRxStartedMs == if msgRx.Between? then 0 else old(msgRxStartedMs)
    {
      if |appBuf| < msgRx.len {
        return Nothing;
      }
      var len, expCrc := msgRx.len, msgRx.crc;
      msgRx, msgRxStartedMs := Between, 0;
      assert appBuf == appBuf[..len] + appBuf[len..];
      if len > maxLen {
        SkipBody(len);
        return Rejected;
      }
      var out := ReadStream(len);
      var crc := Crc.Crc16Loop(out);
      r := if crc == expCrc then Got(out) else Rejected;
    }
  }
}
