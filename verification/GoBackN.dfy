/**
  The ASYNC data path as a two-node system: one sender, one receiver, a FIFO wire each way that may lose
  any frame at any moment. Chunks carry unbounded numbers here (their index in `chunks`); every frame and
  every decision uses only the wire's 254-value sequence. The classes `Sender` and `Receiver` are proved
  against the functions of this module.
 */
module GoBackN {
  import opened Wire
  import opened SeqSpace

  datatype DataFrame = DataFrame(cobsSeq: byte, payload: seq<byte>)

  datatype Feedback = Ack(cobsSeq: byte, bytes: uint16) | Nak(cobsSeq: byte)

  // ----- sender -----

  /** `chunks` are all chunks sent in the session; those from `base` on are unacknowledged. */
  datatype Tx = Tx(base: nat, chunks: seq<seq<byte>>) {
    predicate Valid() {
      base <= |chunks| <= base + WINDOW
    }

    function Pending(): nat
      requires base <= |chunks|
    {
      |chunks| - base
    }

    /** The pending chunk that wire sequence `q` names, if any. */
    function Names(q: byte): Option<nat>
      requires base <= |chunks|
    {
      PendingNo(base, Pending(), q)
    }

    function Frame(n: nat): DataFrame
      requires n < |chunks|
    {
      DataFrame(SeqOf(n), chunks[n])
    }

    /** The first `k` unacknowledged frames, in order. */
    function Burst(k: nat): seq<DataFrame>
      requires base + k <= |chunks|
    {
      seq(k, i requires 0 <= i < k => Frame(base + i))
    }
  }

  /** A cumulative ACK: the named chunk and everything before it is done. */
  function TxAck(tx: Tx, q: byte): Tx
    requires tx.Valid()
  {
    match tx.Names(q)
    case Some(n) => tx.(base := n + 1)
    case None => tx
  }

  /** A cumulative NAK: everything before the named chunk is done. */
  function TxNak(tx: Tx, q: byte): Tx
    requires tx.Valid()
  {
    match tx.Names(q)
    case Some(n) => tx.(base := n)
    case None => tx
  }

  // ----- receiver -----

  /**
    `pushed` are the chunks accepted so far, `taken` the bytes the application has drained of them, `buf` the
    bytes still waiting in the app buffer.
   */
  datatype Rx = Rx(pushed: seq<seq<byte>>, taken: seq<byte>, buf: seq<byte>, cap: nat) {
    function Next(): nat { |pushed| }
  }

  /** The receiver's answer to a data frame: in-order-only, all-or-nothing admission. */
  function RxPayload(rx: Rx, q: byte, payload: seq<byte>): (Rx, Option<Feedback>) {
    var (cls, diff) := ClassifyGap(q, CursorOf(rx.Next()), true);
    match cls
    case Stale =>
      (rx, if GenuineDup(diff) then Some(Ack(q, |payload| % 0x1_0000)) else None)
    case Gap =>
      (rx, Some(Nak(SeqOf(rx.Next()))))
    case Forward =>
      if payload == [] then
        (rx.(pushed := rx.pushed + [payload]), None)
      else if |rx.buf| + |payload| > rx.cap then
        (rx, Some(Nak(q)))
      else
        (rx.(pushed := rx.pushed + [payload], buf := rx.buf + payload), Some(Ack(q, |payload| % 0x1_0000)))
  }

  // ----- the system -----

  /** `dataNo` and `backNo` are history: the unbounded numbers behind the frames on the two wires. */
  datatype Net = Net(tx: Tx, rx: Rx,
                     data: seq<DataFrame>, dataNo: seq<nat>,
                     back: seq<Feedback>, backNo: seq<nat>)

  datatype Event =
    | Send(payload: seq<byte>)
    | Resend(count: nat)       // an RTO round replays a prefix of the window
    | LoseData(at: nat)
    | DeliverData
    | LoseBack(at: nat)        // also: a NAK the receiver suppressed, an ACK that found the ring full
    | DeliverBack(count: nat)  // a NAK replays a prefix of the window
    | Drain(count: nat)

  function Init(cap: nat): Net {
    Net(Tx(0, []), Rx([], [], [], cap), [], [], [], [])
  }

  predicate WellFormed(s: Net) {
    && s.tx.Valid()
    && |s.data| == |s.dataNo|
    && |s.back| == |s.backNo|
  }

  function Without<T>(s: seq<T>, i: nat): seq<T>
    requires i < |s|
  {
    s[..i] + s[i + 1..]
  }

  /** Puts the first `count` unacknowledged frames on the data wire, or all of them when there are fewer. */
  function Replay(s: Net, count: nat): (r: Net)
    requires WellFormed(s)
    ensures WellFormed(r)
  {
    var k := if count <= s.tx.Pending() then count else s.tx.Pending();
    s.(data := s.data + s.tx.Burst(k), dataNo := s.dataNo + seq(k, i => s.tx.base + i))
  }

  /** A new chunk leaves when the window has room for it. */
  function SendChunk(s: Net, payload: seq<byte>): (r: Net)
    requires WellFormed(s)
    ensures WellFormed(r)
  {
    if 1 <= |payload| <= MAX_CHUNK && s.tx.Pending() < WINDOW then
      var n := |s.tx.chunks|;
      s.(tx := s.tx.(chunks := s.tx.chunks + [payload]),
         data := s.data + [DataFrame(SeqOf(n), payload)], dataNo := s.dataNo + [n])
    else
      s
  }

  function Deliver(s: Net): (r: Net)
    requires WellFormed(s) && s.data != []
    ensures WellFormed(r)
  {
    var (rx, answer) := RxPayload(s.rx, s.data[0].cobsSeq, s.data[0].payload);
    var r := s.(rx := rx, data := s.data[1..], dataNo := s.dataNo[1..]);
    match answer
    case None => r
    // An ACK answers the frame just taken off the wire; a NAK names the chunk the receiver waits for.
    case Some(Ack(_, _)) => r.(back := r.back + [answer.value], backNo := r.backNo + [s.dataNo[0]])
    case Some(Nak(_)) => r.(back := r.back + [answer.value], backNo := r.backNo + [s.rx.Next()])
  }

  function Answer(s: Net, count: nat): (r: Net)
    requires WellFormed(s) && s.back != []
    ensures WellFormed(r)
  {
    var r := s.(back := s.back[1..], backNo := s.backNo[1..]);
    match s.back[0]
    case Ack(q, _) => r.(tx := TxAck(s.tx, q))
    case Nak(q) => if s.tx.Names(q).None? then r else Replay(r.(tx := TxNak(s.tx, q)), count)
  }

  function Step(s: Net, e: Event): (r: Net)
    requires WellFormed(s)
    ensures WellFormed(r)
  {
    match e
    case Send(payload) => SendChunk(s, payload)
    case Resend(count) => Replay(s, count)
    case LoseData(i) =>
      if i < |s.data| then s.(data := Without(s.data, i), dataNo := Without(s.dataNo, i)) else s
    case LoseBack(i) =>
      if i < |s.back| then s.(back := Without(s.back, i), backNo := Without(s.backNo, i)) else s
    case DeliverData => if s.data != [] then Deliver(s) else s
    case DeliverBack(count) => if s.back != [] then Answer(s, count) else s
    case Drain(count) =>
      if count <= |s.rx.buf| then
        s.(rx := s.rx.(taken := s.rx.taken + s.rx.buf[..count], buf := s.rx.buf[count..]))
      else s
  }

  /** The state after any finite run of events. */
  function Run(s: Net, events: seq<Event>): (r: Net)
    requires WellFormed(s)
    ensures WellFormed(r)
    decreases |events|
  {
    if events == [] then s else Run(Step(s, events[0]), events[1..])
  }

  // ----- the invariant -----

  ghost predicate CursorsOk(s: Net) {
    && s.tx.base <= s.rx.Next() <= |s.tx.chunks|
    && s.rx.pushed == s.tx.chunks[..s.rx.Next()]
    && (forall n :: 0 <= n < |s.tx.chunks| ==> 1 <= |s.tx.chunks[n]| <= MAX_CHUNK)
    && Flatten(s.rx.pushed) == s.rx.taken + s.rx.buf
  }

  /** A frame in flight is a copy of its chunk, at most one window behind the cursor and the frames ahead of it. */
  ghost predicate DataOk(s: Net)
    requires |s.data| == |s.dataNo|
  {
    && (forall i :: 0 <= i < |s.dataNo| ==>
          && s.dataNo[i] < |s.tx.chunks| && s.data[i] == s.tx.Frame(s.dataNo[i])
          && s.rx.Next() <= s.dataNo[i] + WINDOW)
    && (forall i, j :: 0 <= j < i < |s.dataNo| ==> s.dataNo[j] < s.dataNo[i] + WINDOW)
  }

  /** Where a feedback frame about chunk `n` moves the base. */
  function Target(f: Feedback, n: nat): nat {
    if f.Ack? then n + 1 else n
  }

  /** How far the base may get before feedback about chunk `n` arrives. */
  function Horizon(f: Feedback, n: nat): nat {
    if f.Ack? then n + 1 + WINDOW else n
  }

  /** Feedback in flight speaks of delivered chunks only, and the base cannot overtake its horizon. */
  ghost predicate BackOk(s: Net)
    requires |s.back| == |s.backNo|
  {
    && (forall i :: 0 <= i < |s.backNo| ==>
          && s.backNo[i] < |s.tx.chunks| && s.back[i].cobsSeq == SeqOf(s.backNo[i])
          && Target(s.back[i], s.backNo[i]) <= s.rx.Next()
          && s.tx.base <= Horizon(s.back[i], s.backNo[i]))
    && (forall i, j :: 0 <= j < i < |s.backNo| ==>
          Target(s.back[j], s.backNo[j]) <= Horizon(s.back[i], s.backNo[i]))
  }

  ghost predicate Inv(s: Net) {
    WellFormed(s) && CursorsOk(s) && DataOk(s) && BackOk(s)
  }

  // ----- the receiver decides as if it saw unbounded numbers -----

  /** On a frame in flight the modular classification is the true order, and no duplicate looks ambiguous. */
  lemma ReceiverSeesTrueOrder(s: Net, i: nat)
    requires Inv(s) && i < |s.data|
    ensures var (c, diff) := ClassifyGap(s.data[i].cobsSeq, CursorOf(s.rx.Next()), true);
      c == TrueClass(s.dataNo[i], s.rx.Next()) && (c == Stale ==> GenuineDup(diff))
  {
    ClassifyExact(s.dataNo[i], s.rx.Next());
  }

  /** Feedback in flight names the chunk it was sent about, or nothing; a NAK always still names it. */
  lemma SenderSeesTrueChunk(s: Net, i: nat)
    requires Inv(s) && i < |s.back|
    ensures var n := s.backNo[i];
      s.tx.Names(s.back[i].cobsSeq) == if s.tx.base <= n then Some(n) else None
    ensures s.back[i].Nak? ==> s.tx.base <= s.backNo[i]
  {
    var n, q := s.backNo[i], s.back[i].cobsSeq;
    PendingNoExact(s.tx.base, s.tx.Pending(), q, n);
    if s.tx.base > n && s.tx.Names(q).Some? {
      var m := s.tx.Names(q).value;
      PendingNoExact(s.tx.base, s.tx.Pending(), q, m);
      SeqOfInjective(n, m);
    }
  }

  // ----- every step keeps the invariant -----

  lemma InitInv(cap: nat)
    ensures Inv(Init(cap))
  {
  }

  lemma ReplayKeepsInv(s: Net, count: nat)
    requires Inv(s)
    ensures Inv(Replay(s, count))
  {
  }

  lemma SendKeepsInv(s: Net, payload: seq<byte>)
    requires Inv(s)
    ensures Inv(SendChunk(s, payload))
  {
    var r := SendChunk(s, payload);
    assert r.rx.pushed == r.tx.chunks[..r.rx.Next()];
  }

  /** What a delivery pushes is the next chunk, and no byte of it is lost or doubled. */
  lemma DeliverKeepsCursors(s: Net)
    requires Inv(s) && s.data != []
    ensures CursorsOk(Deliver(s)) && s.rx.Next() <= Deliver(s).rx.Next() <= s.rx.Next() + 1
  {
    var r := Deliver(s);
    var n, next := s.dataNo[0], s.rx.Next();
    ReceiverSeesTrueOrder(s, 0);
    if n == next && |s.rx.buf| + |s.tx.chunks[n]| <= s.rx.cap {
      FlattenSnoc(s.rx.pushed, s.tx.chunks[n]);
      assert r.rx.pushed == s.tx.chunks[..next] + [s.tx.chunks[n]] == s.tx.chunks[..next + 1];
      assert r.rx.taken + r.rx.buf == (s.rx.taken + s.rx.buf) + s.tx.chunks[n];
    }
  }

  /** New feedback about a delivered chunk, its horizon not yet passed by the receiver, joins the wire safely. */
  lemma AnswerJoinsWire(s: Net, f: Feedback, n: nat)
    requires Inv(s) && n < |s.tx.chunks| && f.cobsSeq == SeqOf(n)
    requires Target(f, n) <= s.rx.Next() <= Horizon(f, n)
    ensures Inv(s.(back := s.back + [f], backNo := s.backNo + [n]))
  {
  }

  lemma DeliverKeepsInv(s: Net)
    requires Inv(s) && s.data != []
    ensures Inv(Deliver(s))
  {
    DeliverKeepsCursors(s);
    ReceiverSeesTrueOrder(s, 0);
    var (rx, answer) := RxPayload(s.rx, s.data[0].cobsSeq, s.data[0].payload);
    var r := s.(rx := rx, data := s.data[1..], dataNo := s.dataNo[1..]);
    assert Inv(r);
    match answer
    case None =>
    case Some(Ack(_, _)) => AnswerJoinsWire(r, answer.value, s.dataNo[0]);
    case Some(Nak(_)) => AnswerJoinsWire(r, answer.value, s.rx.Next());
  }

  lemma AnswerKeepsInv(s: Net, count: nat)
    requires Inv(s) && s.back != []
    ensures Inv(Answer(s, count))
  {
    SenderSeesTrueChunk(s, 0);
    var r := s.(back := s.back[1..], backNo := s.backNo[1..]);
    var q := s.back[0].cobsSeq;
    var tx := if s.back[0].Ack? then TxAck(s.tx, q) else TxNak(s.tx, q);
    assert Inv(r.(tx := tx));
    if s.back[0].Nak? {
      ReplayKeepsInv(r.(tx := tx), count);
    }
  }

  lemma LoseDataKeepsInv(s: Net, i: nat)
    requires Inv(s) && i < |s.data|
    ensures Inv(s.(data := Without(s.data, i), dataNo := Without(s.dataNo, i)))
  {
  }

  lemma LoseBackKeepsInv(s: Net, i: nat)
    requires Inv(s) && i < |s.back|
    ensures Inv(s.(back := Without(s.back, i), backNo := Without(s.backNo, i)))
  {
    hide SeqOf, Target, Horizon, CursorsOk, DataOk;
    var r := s.(back := Without(s.back, i), backNo := Without(s.backNo, i));
    assert CursorsOk(r) && DataOk(r) by { OtherWireStands(s, r); }
  }

  lemma OtherWireStands(s: Net, r: Net)
    requires Inv(s) && WellFormed(r) && r == s.(back := r.back, backNo := r.backNo)
    ensures CursorsOk(r) && DataOk(r)
  {
  }

  lemma StepKeepsInv(s: Net, e: Event)
    requires Inv(s)
    ensures Inv(Step(s, e))
  {
    match e
    case Send(payload) => SendKeepsInv(s, payload);
    case Resend(count) => ReplayKeepsInv(s, count);
    case LoseData(i) => if i < |s.data| { LoseDataKeepsInv(s, i); }
    case LoseBack(i) => if i < |s.back| { LoseBackKeepsInv(s, i); }
    case DeliverData => if s.data != [] { DeliverKeepsInv(s); }
    case DeliverBack(count) => if s.back != [] { AnswerKeepsInv(s, count); }
    case Drain(count) =>
      if count <= |s.rx.buf| {
        assert s.rx.taken + s.rx.buf == (s.rx.taken + s.rx.buf[..count]) + s.rx.buf[count..];
      }
  }

  lemma {:induction false} RunKeepsInv(s: Net, events: seq<Event>)
    requires Inv(s)
    ensures Inv(Run(s, events))
    decreases |events|
  {
    if events != [] {
      StepKeepsInv(s, events[0]);
      RunKeepsInv(Step(s, events[0]), events[1..]);
    }
  }

  // ----- the delivery theorem -----

  /**
    Whatever is lost, in whichever direction and for however long the session runs: the chunks pushed to the
    receiver's app buffer are a prefix of the chunks sent, the bytes handed over and still buffered are exactly
    theirs, and base <= receiver's next <= chunks sent <= base + window. A freed chunk was therefore delivered.
   */
  lemma DeliveryIsPrefix(cap: nat, events: seq<Event>)
    ensures var s := Run(Init(cap), events);
      && s.rx.pushed <= s.tx.chunks
      && s.rx.taken + s.rx.buf == Flatten(s.rx.pushed)
      && s.tx.base <= |s.rx.pushed| <= |s.tx.chunks| <= s.tx.base + WINDOW
  {
    InitInv(cap);
    RunKeepsInv(Init(cap), events);
  }

  /**
    In every reachable state the receiver classifies every frame in flight by true order and never meets an
    ambiguous one, every frame in flight is a byte-exact copy of the chunk it stands for, and feedback in flight
    names the chunk it was sent about, or one already freed.
   */
  lemma WireNeverMisleads(cap: nat, events: seq<Event>)
    ensures var s := Run(Init(cap), events);
      && (forall i :: 0 <= i < |s.data| ==>
            var (c, diff) := ClassifyGap(s.data[i].cobsSeq, CursorOf(s.rx.Next()), true);
            && s.dataNo[i] < |s.tx.chunks| && s.data[i] == s.tx.Frame(s.dataNo[i])
            && c == TrueClass(s.dataNo[i], s.rx.Next()) && (c == Stale ==> GenuineDup(diff)))
      && (forall i :: 0 <= i < |s.back| ==>
            s.tx.Names(s.back[i].cobsSeq) == if s.tx.base <= s.backNo[i] then Some(s.backNo[i]) else None)
  {
    InitInv(cap);
    RunKeepsInv(Init(cap), events);
    var s := Run(Init(cap), events);
    forall i | 0 <= i < |s.data|
      ensures var (c, diff) := ClassifyGap(s.data[i].cobsSeq, CursorOf(s.rx.Next()), true);
        c == TrueClass(s.dataNo[i], s.rx.Next()) && (c == Stale ==> GenuineDup(diff))
    {
      ReceiverSeesTrueOrder(s, i);
    }
    forall i | 0 <= i < |s.back|
      ensures s.tx.Names(s.back[i].cobsSeq) == if s.tx.base <= s.backNo[i] then Some(s.backNo[i]) else None
    {
      SenderSeesTrueChunk(s, i);
    }
  }
}
