/**
  `sendMsg` in ASYNC mode: admission, the header and the chunk loop. The link lock is released between chunks,
  so ACKs, NAKs and timer ticks arrive in the middle of a message; `Pause` lists what one such pause brings. A tick
  that ends the retry ladder resets the link: the message is cut off there, and the session with it.
 */
module SendPath {
  import opened Wire
  import opened SeqSpace
  import opened GoBackN
  import opened Messages
  import opened SenderSide
  import opened SenderTables
  import opened Arq
  import Crc
  import E = EndToEnd
  import L = Ladder

  datatype Input =
    | AckIn(q: byte, bytes: uint16)
    | NakIn(q: byte, nakAt: uint32, room: nat)
    | TickIn(tick: L.Tick)

  /** One pause: what is handled meanwhile, and whether link and TX ring are fit to go on after it. */
  datatype Pause = Pause(inputs: seq<Input>, linkOk: bool, ringHasRoom: bool, now: uint32)

  function PauseAt(pauses: seq<Pause>, i: nat, now: uint32): Pause {
    if i < |pauses| then pauses[i] else Pause([], true, true, now)
  }

  /** After pause `i` link and ring are fit to send. */
  predicate GoesOn(pauses: seq<Pause>, i: nat, now: uint32) {
    PauseAt(pauses, i, now).linkOk && PauseAt(pauses, i, now).ringHasRoom
  }

  /** How far the body loop gets: the first of chunks `i` to `total` whose pause ends badly, or `total`. */
  function Reach(pauses: seq<Pause>, i: nat, total: nat, now: uint32): (r: nat)
    requires i <= total
    ensures i <= r <= total && (r < total ==> !GoesOn(pauses, r, now))
    decreases total - i
  {
    if i == total || !GoesOn(pauses, i, now) then i else Reach(pauses, i + 1, total, now)
  }

  datatype Reason =
    LengthInvalid | ChunksOverflow | NotOk | PostLockQuiet | GbnWindowFull | RateLimited | PoolExhaust | TxRingStall

  datatype SendResult = Accepted | Refused(reason: Reason) | Partial(sent: nat)

  /** What admission looks at besides the message and the window. */
  datatype Gate = Gate(maxMsg: nat, linkOk: bool, quiet: bool, rateOk: bool, ringHasRoom: bool)

  /** A refusal names the first test the message has failed, in the order they are made. */
  predicate Blames(r: SendResult, m: seq<byte>, g: Gate, windowOk: bool)
    requires Sendable(m)
  {
    var lenOk := |m| <= g.maxMsg;
    var fits := lenOk && |Chunks(m)| <= SEQ_SPACE;
    && (r == Refused(LengthInvalid) <==> |m| > g.maxMsg)
    && (r == Refused(ChunksOverflow) <==> lenOk && |Chunks(m)| > SEQ_SPACE)
    && (r == Refused(NotOk) <==> fits && !g.linkOk)
    && (r == Refused(PostLockQuiet) <==> fits && g.linkOk && g.quiet)
    && (r == Refused(GbnWindowFull) <==> fits && g.linkOk && !g.quiet && !windowOk)
    && (r == Refused(RateLimited) <==> fits && g.linkOk && !g.quiet && windowOk && !g.rateOk)
    && (r == Refused(PoolExhaust) <==>
          fits && g.linkOk && !g.quiet && windowOk && g.rateOk && !g.ringHasRoom && |Chunks(m)| == 1)
    && (r == Refused(TxRingStall) <==>
          fits && g.linkOk && !g.quiet && windowOk && g.rateOk && !g.ringHasRoom && |Chunks(m)| > 1)
  }

  /** With a link that is OK, unthrottled and has ring room, the gate admits what the system `EndToEnd` admits. */
  lemma AdmitsIsGate(w: E.World, m: seq<byte>, r: SendResult)
    requires E.Good(w) && w.todo == [] && Sendable(m)
    requires Blames(r, m, Gate(w.maxMsg, true, false, true, true), w.net.tx.Pending() + |Chunks(m)| <= w.window)
    ensures !r.Refused? <==> E.Admits(w, m)
  {
    hide Inv, E.RecvOk, Chunks;
    ChunksCarry(m);
    if r.Refused? {
      match r.reason
      case LengthInvalid =>
      case ChunksOverflow =>
      case NotOk =>
      case PostLockQuiet =>
      case GbnWindowFull =>
      case RateLimited =>
      case PoolExhaust =>
      case TxRingStall =>
    }
  }

  /** How many of a message's `total` chunks went out. */
  function SentOf(r: SendResult, total: nat): nat {
    match r
    case Accepted => total
    case Refused(_) => 0
    case Partial(k) => k
  }

  /** How an admitted message ends: a single chunk is out at once, a longer one may be cut off in a pause. */
  function Outcome(m: seq<byte>, now: uint32, pauses: seq<Pause>): (r: SendResult)
    requires Sendable(m)
    ensures !r.Refused?
    ensures r.Partial? ==> 1 <= r.sent < |Chunks(m)|
  {
    var k := Reach(pauses, 0, |Split(m)|, now);
    if |m| + MSG_HDR <= MAX_CHUNK || k == |Split(m)| then Accepted else Partial(k + 1)
  }

  /** The sender after these inputs, as long as no tick has reset it. */
  function AfterInputs(tx: Tx, inputs: seq<Input>): (r: Tx)
    requires tx.Valid()
    ensures r.Valid() && r.chunks == tx.chunks && r.base >= tx.base
    decreases |inputs|
  {
    if inputs == [] then tx
    else
      var next := match inputs[0]
        case AckIn(q, _) => TxAck(tx, q)
        case NakIn(q, _, _) => TxNak(tx, q)
        case TickIn(_) => tx;
      AfterInputs(next, inputs[1..])
  }

  /** Input `x` acknowledges everything before chunk `upTo`, by an ACK for the chunk before it or a NAK for itself. */
  ghost predicate Clears(x: Input, from: nat, total: nat, upTo: nat) {
    match x
    case AckIn(q, _) => from < upTo <= total && SeqOf(upTo - 1) == q
    case NakIn(q, _, _) => from <= upTo < total && SeqOf(upTo) == q
    case TickIn(_) => false
  }

  /** After one input the base is where the input puts it, if that is further on. */
  lemma OneInput(tx: Tx, x: Input)
    requires tx.Valid()
    ensures var r := AfterInputs(tx, [x]);
      && (r.base == tx.base || Clears(x, tx.base, |tx.chunks|, r.base))
      && forall k: nat :: Clears(x, tx.base, |tx.chunks|, k) ==> r.base == k
  {
    hide SeqOf;
    var r := AfterInputs(tx, [x]);
    assert [x][1..] == [];
    match x
    case AckIn(q, _) => NamesOnly(tx, q);
    case NakIn(q, _, _) => NamesOnly(tx, q);
    case TickIn(_) =>
  }

  lemma InputsCons(tx: Tx, inputs: seq<Input>)
    requires tx.Valid() && inputs != []
    ensures AfterInputs(tx, inputs) == AfterInputs(AfterInputs(tx, [inputs[0]]), inputs[1..])
  {
    assert [inputs[0]][1..] == [];
  }

  /** The base ends up where the furthest of the ACKs and NAKs for its window puts it, in whatever order they come. */
  lemma {:induction false} FurthestInputCounts(tx: Tx, inputs: seq<Input>)
    requires tx.Valid()
    ensures var r := AfterInputs(tx, inputs);
      && (forall i, k: nat :: 0 <= i < |inputs| && Clears(inputs[i], tx.base, |tx.chunks|, k) ==> r.base >= k)
      && (r.base == tx.base || exists i :: 0 <= i < |inputs| && Clears(inputs[i], tx.base, |tx.chunks|, r.base))
    decreases |inputs|
  {
    hide AfterInputs, SeqOf;
    var r, total := AfterInputs(tx, inputs), |tx.chunks|;
    if inputs == [] {
      NoInputs(tx);
    } else {
      var n := AfterInputs(tx, [inputs[0]]);
      OneInput(tx, inputs[0]);
      InputsCons(tx, inputs);
      FurthestInputCounts(n, inputs[1..]);
      forall i, k: nat | 0 <= i < |inputs| && Clears(inputs[i], tx.base, total, k)
        ensures r.base >= k
      {
        if i > 0 {
          assert inputs[i] == inputs[1..][i - 1];
          if k > n.base { assert Clears(inputs[1..][i - 1], n.base, total, k); }
        }
      }
      if r.base == n.base {
        if n.base != tx.base { assert Clears(inputs[0], tx.base, total, r.base); }
      } else {
        var i :| 0 <= i < |inputs[1..]| && Clears(inputs[1..][i], n.base, total, r.base);
        assert Clears(inputs[i + 1], tx.base, total, r.base);
      }
    }
  }

  lemma NoInputs(tx: Tx)
    requires tx.Valid()
    ensures AfterInputs(tx, []) == tx
  {
  }

  /**
    What other tasks do while the lock is free moves the base at most; it never adds a chunk. `wiped` says that a tick
    has reset the link: nothing behind it is for this session, which is gone.
   */
  method Interfere(s: Sender, inputs: seq<Input>) returns (wiped: bool)
    requires s.Valid()
    modifies s, s.arq, s.arq.slots, s.cache.Repr
    ensures s.Valid() && s.cache.window == old(s.cache.window)
    ensures if wiped then s.tx == Tx(0, []) else s.tx == AfterInputs(old(s.tx), inputs)
  {
    hide Sender.Valid, TxAck, TxNak;
    var i := 0;
    assert inputs[0..] == inputs;
    while i < |inputs|
      invariant 0 <= i <= |inputs| && s.Valid() && s.cache.window == old(s.cache.window)
      invariant AfterInputs(s.tx, inputs[i..]) == AfterInputs(old(s.tx), inputs)
    {
      assert inputs[i..][1..] == inputs[i + 1..];
      match inputs[i] {
        case AckIn(q, bytes) => s.OnAck(q, bytes);
        case NakIn(q, nakAt, room) => var _ := s.OnNak(q, nakAt, room);
        case TickIn(tick) =>
          var pending := s.Inflight();
          var verdict, _ := s.SweepRetx(tick.(pending := pending));
          if verdict == L.Reset {
            return true;
          }
      }
      i := i + 1;
    }
    wiped := false;
  }

  lemma TakeSnoc<T>(was: seq<T>, more: seq<T>, k: nat)
    requires k < |more|
    ensures was + more[..k] + [more[k]] == was + more[..k + 1]
  {
  }

  lemma TakeCons<T>(was: seq<T>, x: T, rest: seq<T>, k: nat)
    requires k <= |rest|
    ensures was + [x] + rest[..k] == was + ([x] + rest)[..k + 1]
  {
  }

  /** One body chunk, after its pause: all of it or, when the ring or the link gives out, none. */
  method SendPiece(s: Sender, m: seq<byte>, offset: nat, ghost i: nat, baseSeq: byte, pause: Pause)
    returns (ok: bool, ghost wiped: bool)
    requires s.Valid() && i < |Split(m)| && offset == i * MAX_CHUNK
    requires s.tx.Pending() < WINDOW
    modifies s, s.arq, s.arq.slots, s.cache.Repr
    ensures s.Valid() && s.cache.window == old(s.cache.window)
    ensures ok <==> !wiped && pause.linkOk && pause.ringHasRoom
    ensures if wiped then s.tx == Tx(0, []) else
      s.tx.base >= old(s.tx.base) && s.tx.chunks == if ok then old(s.tx.chunks) + [Split(m)[i]] else old(s.tx.chunks)
  {
    hide Sender.Valid;
    SplitAt(m, i);
    var reset := Interfere(s, pause.inputs);
    wiped := reset;
    ok := !reset && pause.linkOk && pause.ringHasRoom;
    if ok {
      var roomLeft := s.PoolHasRoom();
      var chunk := if |m| - offset < MAX_CHUNK then |m| - offset else MAX_CHUNK;
      var piece := m[offset..offset + chunk];
      assert piece == Split(m)[i];
      var _ := s.SendChunk(piece, baseSeq, pause.now, true);
    }
  }

  lemma SplitEmpty(m: seq<byte>)
    ensures Split(m) == [] <==> m == []
  {
  }

  /** The body loop: chunk after chunk of at most 250 bytes, until the ring or the link gives out. */
  method SendBody(s: Sender, m: seq<byte>, baseSeq: byte, now: uint32, pauses: seq<Pause>)
    returns (sent: nat, ghost wiped: bool)
    requires s.Valid() && s.tx.Pending() + |Split(m)| <= WINDOW
    modifies s, s.arq, s.arq.slots, s.cache.Repr
    ensures s.Valid() && s.cache.window == old(s.cache.window)
    ensures wiped ==> s.tx == Tx(0, []) && sent < |Split(m)| && sent <= Reach(pauses, 0, |Split(m)|, now)
    ensures !wiped ==>
      && sent == Reach(pauses, 0, |Split(m)|, now)
      && s.tx.chunks == old(s.tx.chunks) + Split(m)[..sent] && s.tx.base >= old(s.tx.base)
  {
    hide Sender.Valid, Split;
    SplitCarries(m);
    SplitEmpty(m);
    sent, wiped := 0, false;
    var offset := 0;
    while offset < |m|
      invariant 0 <= sent <= |Split(m)| && !wiped
      invariant if sent == |Split(m)| then offset >= |m| else offset == sent * MAX_CHUNK < |m|
      invariant s.Valid() && s.cache.window == old(s.cache.window)
      invariant s.tx.chunks == old(s.tx.chunks) + Split(m)[..sent] && s.tx.base >= old(s.tx.base)
      invariant Reach(pauses, 0, |Split(m)|, now) == Reach(pauses, sent, |Split(m)|, now)
      decreases |Split(m)| - sent
    {
      SplitAt(m, sent);
      var ok;
      ok, wiped := SendPiece(s, m, offset, sent, baseSeq, PauseAt(pauses, sent, now));
      if !ok {
        return;
      }
      TakeSnoc(old(s.tx.chunks), Split(m), sent);
      offset, sent := offset + MAX_CHUNK, sent + 1;
    }
  }

  /** What is left of a session that a tick inside a pause has ended: nothing, and the message was cut off before that pause. */
  ghost predicate CutByReset(s: Sender, r: SendResult, m: seq<byte>, now: uint32, pauses: seq<Pause>)
    requires Sendable(m)
    reads s
  {
    && s.tx == Tx(0, []) && r.Partial? && 1 <= r.sent < |Chunks(m)|
    && r.sent <= SentOf(Outcome(m, now, pauses), |Chunks(m)|)
  }

  /** A message of several chunks: the header alone first, the body behind it. */
  method SendSplit(s: Sender, m: seq<byte>, hdr: seq<byte>, now: uint32, ringHasRoom: bool, pauses: seq<Pause>)
    returns (r: SendResult, baseSeq: byte, ghost wiped: bool)
    requires s.Valid() && Sendable(m) && |m| + MSG_HDR > MAX_CHUNK && hdr == Header(m)
    requires s.tx.Pending() + |Chunks(m)| <= WINDOW
    modifies s, s.arq, s.arq.slots, s.cache.Repr
    ensures s.Valid() && s.cache.window == old(s.cache.window)
    ensures baseSeq == if ringHasRoom then SeqOf(|old(s.tx.chunks)|) else 0
    ensures !ringHasRoom ==> r == Refused(TxRingStall) && s.tx == old(s.tx) && !wiped
    ensures ringHasRoom && !wiped ==> r == Outcome(m, now, pauses)
    ensures if wiped then CutByReset(s, r, m, now, pauses)
            else s.tx.chunks == old(s.tx.chunks) + Chunks(m)[..SentOf(r, |Chunks(m)|)] && s.tx.base >= old(s.tx.base)
  {
    hide Sender.Valid, Split;
    SplitCarries(m);
    SplitEmpty(m);
    if !ringHasRoom {
      return Refused(TxRingStall), 0, false;
    }
    var freeRoom := s.PoolRoom();
    if freeRoom < ChunksForMsgLen(|m|) {
      assert false;
    }
    var base := s.SendChunk(hdr, NO_BASE, now, true);
    baseSeq := base.value.cobsSeq;
    var sent;
    sent, wiped := SendBody(s, m, baseSeq, now, pauses);
    TakeCons(old(s.tx.chunks), hdr, Split(m), sent);
    r := if sent == |Split(m)| then Accepted else Partial(sent + 1);
  }

  /** The chunks of an admitted message: header and body in one, or the header first and the body behind it. */
  method SendAdmitted(s: Sender, m: seq<byte>, now: uint32, ringHasRoom: bool, pauses: seq<Pause>)
    returns (r: SendResult, baseSeq: byte, ghost wiped: bool)
    requires s.Valid() && Sendable(m) && s.tx.Pending() + |Chunks(m)| <= WINDOW
    modifies s, s.arq, s.arq.slots, s.cache.Repr
    ensures s.Valid() && s.cache.window == old(s.cache.window)
    ensures baseSeq == if ringHasRoom then SeqOf(|old(s.tx.chunks)|) else 0
    ensures !ringHasRoom ==>
      r == Refused(if |Chunks(m)| == 1 then PoolExhaust else TxRingStall) && s.tx == old(s.tx) && !wiped
    ensures ringHasRoom && !wiped ==> r == Outcome(m, now, pauses)
    ensures if wiped then CutByReset(s, r, m, now, pauses)
            else s.tx.chunks == old(s.tx.chunks) + Chunks(m)[..SentOf(r, |Chunks(m)|)] && s.tx.base >= old(s.tx.base)
  {
    hide Sender.Valid;
    ChunksCarry(m);
    var crc := Crc.Crc16Loop(m);
    var hdr := HdrEncode(|m|, crc);
    if |m| + MSG_HDR <= MAX_CHUNK {
      var base := s.SendChunk(hdr + m, NO_BASE, now, ringHasRoom);
      r, baseSeq := if base.None? then Refused(PoolExhaust) else Accepted, if base.None? then 0 else base.value.cobsSeq;
      wiped := false;
      assert [hdr + m][..0] == [] && [hdr + m][..1] == [hdr + m] == Chunks(m);
      return;
    }
    r, baseSeq, wiped := SendSplit(s, m, hdr, now, ringHasRoom, pauses);
  }

  /** The tests made before anything is sent, in their order; the ring is asked later. */
  method Admit(s: Sender, m: seq<byte>, g: Gate) returns (refused: Option<Reason>)
    requires s.Valid() && Sendable(m)
    ensures refused.None? <==>
      && |m| <= g.maxMsg && |Chunks(m)| <= SEQ_SPACE && g.linkOk && !g.quiet
      && s.tx.Pending() + |Chunks(m)| <= s.cache.window && g.rateOk
    ensures refused.Some? ==> Blames(Refused(refused.value), m, g, s.tx.Pending() + |Chunks(m)| <= s.cache.window)
  {
    hide Sender.Valid, Chunks;
    ChunksCarry(m);
    if |m| > g.maxMsg {
      return Some(LengthInvalid);
    }
    var chunks := ChunksForMsgLen(|m|);
    if chunks <= 0 || chunks > SEQ_SPACE {
      return Some(ChunksOverflow);
    }
    if !g.linkOk {
      return Some(NotOk);
    }
    if g.quiet {
      return Some(PostLockQuiet);
    }
    var inflight := s.Inflight();
    if inflight + chunks > s.cache.window {
      return Some(GbnWindowFull);
    }
    if !g.rateOk {
      return Some(RateLimited);
    }
    refused := None;
  }

  /**
    One `sendMsg` call. It is refused exactly when one of seven tests fails, the first of which it names, and then
    nothing changes; otherwise a prefix of the message's chunks joins the window, all of them when the call returns true.
    Of window and pool the window alone decides: the pool is never short of room for a message the gate has admitted.
    Only a reset in the middle of the message undoes that, and then the whole session is gone. `baseSeq` is the sequence of the first chunk, or 0;
    `baseLap` is the lap the call ends in.
   */
  method SendMsg(s: Sender, m: seq<byte>, g: Gate, now: uint32, pauses: seq<Pause>)
    returns (r: SendResult, baseSeq: byte, baseLap: Option<byte>, ghost wiped: bool)
    requires s.Valid() && |m| < 0x8000_0000
    modifies s, s.arq, s.arq.slots, s.cache.Repr
    ensures s.Valid() && s.cache.window == old(s.cache.window)
    ensures baseLap == if m == [] || r.Refused? then None else Some(s.txSeqLap)
    ensures m == [] ==> r == Accepted && s.tx == old(s.tx) && baseSeq == 0 && !wiped
    ensures m != [] ==>
      (!r.Refused? <==>
        && |m| <= g.maxMsg && |Chunks(m)| <= SEQ_SPACE && g.linkOk && !g.quiet
        && old(s.tx.Pending()) + |Chunks(m)| <= s.cache.window && g.rateOk && g.ringHasRoom)
    ensures m != [] ==> Blames(r, m, g, old(s.tx.Pending()) + |Chunks(m)| <= s.cache.window)
    ensures r.Refused? ==> s.tx == old(s.tx) && baseSeq == 0 && !wiped
    ensures m != [] && !r.Refused? ==>
      && baseSeq == SeqOf(|old(s.tx.chunks)|)
      && (wiped ==> CutByReset(s, r, m, now, pauses))
      && (!wiped ==>
            && r == Outcome(m, now, pauses) && s.tx.base >= old(s.tx.base)
            && s.tx.chunks == old(s.tx.chunks) + Chunks(m)[..SentOf(r, |Chunks(m)|)])
  {
    hide Sender.Valid, Chunks, Outcome, Reach;
    baseSeq, baseLap, wiped := 0, None, false;
    if |m| == 0 {
      r := Accepted;
      return;
    }
    ChunksCarry(m);
    var refused := Admit(s, m, g);
    if refused.Some? {
      r := Refused(refused.value);
      return;
    }
    r, baseSeq, wiped := SendAdmitted(s, m, now, g.ringHasRoom, pauses);
    if !r.Refused? {
      baseLap := Some(s.txSeqLap);
    }
  }
}
