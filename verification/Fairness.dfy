/**
  Delivery, not just safety: in every run without end in which the sender keeps retrying, the applications keep calling
  and neither wire loses for ever what is put on it again and again, every accepted message is received, however much
  else is sent meanwhile.
 */
module Fairness {
  import opened Wire
  import opened SeqSpace
  import opened GoBackN
  import opened Messages
  import opened EndToEnd
  import opened Progress

  /** A run without end: what happens at each moment. */
  type Schedule = nat -> Action

  /** The world at moment `i`. */
  ghost function At(w: World, f: Schedule, i: nat): (r: World)
    requires WellFormed(w.net)
    ensures WellFormed(r.net)
  {
    if i == 0 then w else Act(At(w, f, i - 1), f(i - 1))
  }

  datatype Mark =
    | Pushes               // the chunk loop of a sendMsg call goes on
    | Receives             // a recvMsg call
    | Retries              // an RTO round that resends something
    | PutsData(n: nat)     // chunk n goes on the data wire
    | TakesData(n: nat)    // it is delivered
    | PutsAck(n: nat)      // an ACK for chunk n goes on the way back
    | TakesAck(n: nat)     // it is delivered

  /** Whether action `a` in world `w` does what the mark says. */
  ghost predicate Does(w: World, a: Action, k: Mark)
    requires WellFormed(w.net)
  {
    match k
    case Pushes => a.PushChunk?
    case Receives => a.Recv?
    case Retries => a.Link? && a.event.Resend? && a.event.count > 0
    case PutsData(n) => |Act(w, a).net.dataNo| > |w.net.dataNo| && n in Act(w, a).net.dataNo[|w.net.dataNo|..]
    case TakesData(n) => a == Link(DeliverData) && w.net.dataNo != [] && w.net.dataNo[0] == n
    case PutsAck(n) =>
      && |Act(w, a).net.back| == |w.net.back| + 1
      && Act(w, a).net.back[|w.net.back|].Ack? && Act(w, a).net.backNo[|w.net.back|] == n
    case TakesAck(n) =>
      a.Link? && a.event.DeliverBack? && w.net.back != [] && w.net.back[0].Ack? && w.net.backNo[0] == n
  }

  ghost predicate DoesAt(w: World, f: Schedule, k: Mark, i: nat)
    requires WellFormed(w.net)
  {
    Does(At(w, f, i), f(i), k)
  }

  /** It is done at moment `i` or later. */
  ghost predicate Later(w: World, f: Schedule, k: Mark, i: nat)
    requires WellFormed(w.net)
  {
    exists j: nat :: i <= j && DoesAt(w, f, k, j)
  }

  /** It is done again and again. */
  ghost predicate Often(w: World, f: Schedule, k: Mark)
    requires WellFormed(w.net)
  {
    forall i: nat :: Later(w, f, k, i)
  }

  /**
    Fair: pushes, receive calls and retries never cease, and a wire on which one frame is put again and again delivers
    it again and again, whatever it loses besides. No sendMsg call gives up in the middle.
   */
  ghost predicate Fair(w: World, f: Schedule)
    requires WellFormed(w.net)
  {
    && Often(w, f, Pushes) && Often(w, f, Receives) && Often(w, f, Retries)
    && (forall n: nat :: Often(w, f, PutsData(n)) ==> Often(w, f, TakesData(n)))
    && (forall n: nat :: Often(w, f, PutsAck(n)) ==> Often(w, f, TakesAck(n)))
    && (forall i: nat :: !At(w, f, i).cut)
  }

  /** A fair run from a good world whose app buffer holds one longest message and its header. */
  ghost predicate GoodRun(w: World, f: Schedule) {
    Good(w) && Fair(w, f) && w.net.rx.cap >= w.maxMsg + MSG_HDR
  }

  // ----- what never goes back -----

  lemma {:induction false} StaysGood(w: World, f: Schedule, i: nat)
    requires GoodRun(w, f)
    ensures Good(At(w, f, i)) && At(w, f, i).maxMsg == w.maxMsg && At(w, f, i).net.rx.cap == w.net.rx.cap
  {
    hide Good, Act;
    GoodIs(w);
    if i > 0 {
      StaysGood(w, f, i - 1);
      assert !At(w, f, i).cut;
      ActKeepsGood(At(w, f, i - 1), f(i - 1));
      ActKeepsShape(At(w, f, i - 1), f(i - 1));
    }
  }

  /** `r` is `w` or later: messages, chunks, cursors and receipts only grow. */
  ghost predicate Grown(w: World, r: World) {
    && w.accepted <= r.accepted && w.net.tx.chunks <= r.net.tx.chunks
    && w.net.tx.base <= r.net.tx.base && w.net.rx.pushed <= r.net.rx.pushed
    && w.net.rx.taken <= r.net.rx.taken && w.receipts <= r.receipts
  }

  lemma ActGrows(w: World, a: Action)
    requires WellFormed(w.net)
    ensures Grown(w, Act(w, a))
  {
    hide Messages.Recv, ClassifyGap, Chunks;
  }

  lemma {:induction false} RunGrows(w: World, f: Schedule, i: nat, j: nat)
    requires WellFormed(w.net) && i <= j
    ensures Grown(At(w, f, i), At(w, f, j))
    decreases j
  {
    hide Act;
    if i < j {
      RunGrows(w, f, i, j - 1);
      ActGrows(At(w, f, j - 1), f(j - 1));
    }
  }

  // ----- single steps -----

  /** A retry puts the base on the wire. */
  lemma RetryPuts(w: World, a: Action)
    requires WellFormed(w.net) && w.net.tx.Pending() > 0 && Does(w, a, Retries)
    ensures Does(w, a, PutsData(w.net.tx.base))
  {
    var r := Act(w, a);
    assert r.net.dataNo[|w.net.dataNo|] == w.net.tx.base + 0;
    assert r.net.dataNo[|w.net.dataNo|..][0] == w.net.tx.base;
  }

  lemma NetAcksAgain(s: Net)
    requires Inv(s) && s.data != [] && s.dataNo[0] < s.rx.Next()
    ensures exists n: uint16 :: Deliver(s).back == s.back + [Ack(s.data[0].cobsSeq, n)]
    ensures Deliver(s).backNo == s.backNo + [s.dataNo[0]]
  {
    hide ClassifyGap;
    ReceiverSeesTrueOrder(s, 0);
  }

  /** A chunk the receiver has already is acknowledged again. */
  lemma DuplicateAcked(w: World, n: nat)
    requires Good(w) && Does(w, Link(DeliverData), TakesData(n)) && n < w.net.rx.Next()
    ensures Does(w, Link(DeliverData), PutsAck(n))
  {
    hide Deliver, SendOk, RecvOk;
    NetAcksAgain(w.net);
  }

  lemma NetPushes(s: Net)
    requires Inv(s) && s.data != [] && s.dataNo[0] == s.rx.Next() && |s.rx.buf| + |s.data[0].payload| <= s.rx.cap
    ensures Deliver(s).rx.Next() == s.rx.Next() + 1
  {
    hide ClassifyGap;
    ReceiverSeesTrueOrder(s, 0);
  }

  lemma FrontIsCopy(s: Net)
    requires Inv(s) && s.data != []
    ensures s.dataNo[0] < |s.tx.chunks| && s.data[0] == s.tx.Frame(s.dataNo[0])
  {
  }

  /** A receiver that waits has room for it. */
  lemma NextFits(w: World)
    requires Good(w) && Waiting(w) && w.net.rx.cap >= w.maxMsg + MSG_HDR
    requires w.net.data != [] && w.net.dataNo[0] == w.net.rx.Next()
    ensures |w.net.rx.buf| + |w.net.data[0].payload| <= w.net.rx.cap
  {
    hide Inv, RecvOk, Waiting;
    FrontIsCopy(w.net);
    assert AllChunks(w.accepted)[w.net.rx.Next()] == w.net.tx.chunks[w.net.rx.Next()];
    NextChunkFits(w);
  }

  /** The next chunk is pushed by a receiver that waits for it. */
  lemma NextPushed(w: World)
    requires Good(w) && Waiting(w) && w.net.rx.cap >= w.maxMsg + MSG_HDR
    requires Does(w, Link(DeliverData), TakesData(w.net.rx.Next()))
    ensures Act(w, Link(DeliverData)).net.rx.Next() == w.net.rx.Next() + 1
  {
    hide Good, Inv, Deliver, Waiting;
    GoodIs(w);
    NextFits(w);
    NetPushes(w.net);
  }

  /** An ACK for the base frees it. */
  lemma AckFrees(w: World, a: Action)
    requires Good(w) && w.net.tx.Pending() > 0 && Does(w, a, TakesAck(w.net.tx.base))
    ensures Act(w, a).net.tx.base > w.net.tx.base
  {
    hide SendOk, RecvOk, Replay, TxNak;
    BackIsHere(w, a);
    AckedBase(w.net, a.event.count);
  }

  lemma BackIsHere(w: World, a: Action)
    requires Good(w) && Does(w, a, TakesAck(w.net.tx.base))
    ensures Inv(w.net) && w.net.back != [] && Act(w, a).net == Answer(w.net, a.event.count)
  {
    hide SendOk, RecvOk, Inv, Answer, Replay, Receive;
    GoodIs(w);
  }

  lemma AckedBase(s: Net, count: nat)
    requires Inv(s) && s.back != [] && s.back[0].Ack? && s.backNo[0] == s.tx.base && s.tx.Pending() > 0
    ensures Answer(s, count).tx == s.tx.(base := s.tx.base + 1)
  {
    hide DataOk, CursorsOk, BackOk;
    SenderSeesTrueChunk(s, 0);
  }

  /** While no chunk comes, the buffer only drains, and a receiver that waits goes on waiting. */
  lemma BufferStep(w: World, a: Action)
    requires Good(w) && Act(w, a).net.rx.pushed == w.net.rx.pushed
    ensures |Act(w, a).net.rx.buf| <= |w.net.rx.buf|
    ensures Waiting(w) ==> Waiting(Act(w, a))
    ensures a.Recv? && !Waiting(w) ==> |Act(w, a).net.rx.buf| < |w.net.rx.buf|
  {
    GoodIs(w);
    match a
    case Recv(maxLen) =>
      if !Waiting(w) { ReceiveTakes(w, maxLen); } else { WaitingKeeps(w, maxLen); }
    case Link(e) => if OwnStep(e) { StepKeepsBuffer(w.net, e); }
    case _ =>
  }

  lemma WaitingKeeps(w: World, maxLen: nat)
    requires WellFormed(w.net) && Waiting(w)
    ensures Receive(w, maxLen) == w
  {
    var rx := w.net.rx;
    assert rx.buf[..0] == [] && rx.taken + [] == rx.taken;
  }

  lemma StepKeepsBuffer(s: Net, e: Event)
    requires WellFormed(s) && OwnStep(e) && Step(s, e).rx.pushed == s.rx.pushed
    ensures Step(s, e).rx.buf == s.rx.buf
  {
    hide ClassifyGap, PendingNo;
  }

  // ----- a base cannot stay for ever -----

  /** From moment `i` on the base is `b`, and chunk `b` is out. */
  ghost predicate Stuck(w: World, f: Schedule, i: nat, b: nat)
    requires WellFormed(w.net)
  {
    At(w, f, i).net.tx.Pending() > 0 && forall j: nat :: i <= j ==> At(w, f, j).net.tx.base == b
  }

  lemma StuckPending(w: World, f: Schedule, i: nat, b: nat, j: nat)
    requires WellFormed(w.net) && Stuck(w, f, i, b) && i <= j
    ensures At(w, f, j).net.tx.Pending() > 0
  {
    RunGrows(w, f, i, j);
  }

  /** The next moment, not before `i`, at which what is done often is done. */
  lemma NextTime(w: World, f: Schedule, k: Mark, i: nat) returns (j: nat)
    requires WellFormed(w.net) && Often(w, f, k)
    ensures i <= j && DoesAt(w, f, k, j)
  {
    assert Later(w, f, k, i);
    j :| i <= j && DoesAt(w, f, k, j);
  }

  lemma BasePutOften(w: World, f: Schedule, i: nat, b: nat)
    requires GoodRun(w, f) && WellFormed(w.net) && Stuck(w, f, i, b)
    ensures Often(w, f, PutsData(b))
  {
    hide At, Does, Good;
    forall k: nat
      ensures Later(w, f, PutsData(b), k)
    {
      var j := NextTime(w, f, Retries, i + k);
      StuckPending(w, f, i, b, j);
      RetryPuts(At(w, f, j), f(j));
      assert DoesAt(w, f, PutsData(b), j);
    }
  }

  lemma AckPutOften(w: World, f: Schedule, i: nat, b: nat)
    requires GoodRun(w, f) && WellFormed(w.net) && Often(w, f, TakesData(b)) && At(w, f, i).net.rx.Next() > b
    ensures Often(w, f, PutsAck(b))
  {
    hide At, Good;
    forall k: nat
      ensures Later(w, f, PutsAck(b), k)
    {
      var j := NextTime(w, f, TakesData(b), i + k);
      RunGrows(w, f, i, j);
      StaysGood(w, f, j);
      DuplicateAcked(At(w, f, j), b);
      assert DoesAt(w, f, PutsAck(b), j);
    }
  }

  /** While no chunk comes, at every moment between two. */
  lemma {:induction false} BufferShrinks(w: World, f: Schedule, i: nat, j: nat)
    requires GoodRun(w, f) && WellFormed(w.net) && i <= j && At(w, f, j).net.rx.Next() == At(w, f, i).net.rx.Next()
    ensures |At(w, f, j).net.rx.buf| <= |At(w, f, i).net.rx.buf|
    ensures Waiting(At(w, f, i)) ==> Waiting(At(w, f, j))
    decreases j
  {
    hide At, Act, Good, Waiting, Does;
    if i < j {
      RunGrows(w, f, i, j - 1);
      RunGrows(w, f, j - 1, j);
      BufferShrinks(w, f, i, j - 1);
      BufferAt(w, f, j - 1);
    }
  }

  lemma BufferAt(w: World, f: Schedule, j: nat)
    requires GoodRun(w, f) && WellFormed(w.net) && At(w, f, j + 1).net.rx.Next() == At(w, f, j).net.rx.Next()
    ensures |At(w, f, j + 1).net.rx.buf| <= |At(w, f, j).net.rx.buf|
    ensures Waiting(At(w, f, j)) ==> Waiting(At(w, f, j + 1))
    ensures f(j).Recv? && !Waiting(At(w, f, j)) ==> |At(w, f, j + 1).net.rx.buf| < |At(w, f, j).net.rx.buf|
  {
    hide At, Act, Good, Waiting, Does;
    StaysGood(w, f, j);
    AtNext(w, f, j);
    ActGrows(At(w, f, j), f(j));
    BufferStep(At(w, f, j), f(j));
  }

  lemma AtNext(w: World, f: Schedule, j: nat)
    requires WellFormed(w.net)
    ensures At(w, f, j + 1) == Act(At(w, f, j), f(j))
  {
  }

  /** Unless a chunk comes first, the receive calls empty the buffer until the receiver waits. */
  lemma {:induction false} ComesToWait(w: World, f: Schedule, i: nat) returns (j: nat)
    requires GoodRun(w, f) && WellFormed(w.net)
    ensures i <= j
    ensures At(w, f, j).net.rx.Next() > At(w, f, i).net.rx.Next()
      || (At(w, f, j).net.rx.Next() == At(w, f, i).net.rx.Next() && Waiting(At(w, f, j)))
    decreases |At(w, f, i).net.rx.buf|
  {
    hide At, Act, Good, Waiting;
    j := NextTime(w, f, Receives, i);
    RunGrows(w, f, i, j);
    RunGrows(w, f, j, j + 1);
    if At(w, f, j + 1).net.rx.Next() > At(w, f, i).net.rx.Next() {
      j := j + 1;
    } else if !Waiting(At(w, f, j)) {
      BufferShrinks(w, f, i, j);
      BufferAt(w, f, j);
      j := ComesToWait(w, f, j + 1);
    }
  }

  /** A chunk delivered again and again is taken in the end. */
  lemma NextTaken(w: World, f: Schedule, i: nat) returns (j: nat)
    requires GoodRun(w, f) && WellFormed(w.net) && Often(w, f, TakesData(At(w, f, i).net.rx.Next()))
    ensures i <= j && At(w, f, j).net.rx.Next() > At(w, f, i).net.rx.Next()
  {
    hide At, Act, Good, Waiting;
    var k := ComesToWait(w, f, i);
    j := NextTime(w, f, TakesData(At(w, f, i).net.rx.Next()), k);
    RunGrows(w, f, k, j);
    if At(w, f, j).net.rx.Next() == At(w, f, i).net.rx.Next() {
      BufferShrinks(w, f, k, j);
      StaysGood(w, f, j);
      AtNext(w, f, j);
      NextPushed(At(w, f, j));
      j := j + 1;
    }
  }

  /** So the receiver gets past the base. */
  lemma BaseTaken(w: World, f: Schedule, i: nat, b: nat) returns (j: nat)
    requires GoodRun(w, f) && WellFormed(w.net) && At(w, f, i).net.tx.base == b && Often(w, f, TakesData(b))
    ensures i <= j && At(w, f, j).net.rx.Next() > b
  {
    hide At, Does, Good, Fair, Often;
    StaysGood(w, f, i);
    BaseIsTaken(At(w, f, i));
    j := i;
    if At(w, f, i).net.rx.Next() <= b {
      j := NextTaken(w, f, i);
    }
  }

  lemma BaseIsTaken(w: World)
    requires Good(w)
    ensures w.net.tx.base <= w.net.rx.Next()
  {
  }

  lemma NeverStuck(w: World, f: Schedule, i: nat, b: nat)
    requires GoodRun(w, f) && WellFormed(w.net)
    ensures !Stuck(w, f, i, b)
  {
    hide At, Act, Good;
    if Stuck(w, f, i, b) {
      BasePutOften(w, f, i, b);
      var k := BaseTaken(w, f, i, b);
      AckPutOften(w, f, k, b);
      var j := NextTime(w, f, TakesAck(b), i);
      StuckPending(w, f, i, b, j);
      StaysGood(w, f, j);
      AtNext(w, f, j);
      assert At(w, f, j).net.tx.base == b && At(w, f, j + 1).net.tx.base == b;
      AckFrees(At(w, f, j), f(j));
      assert false;
    }
  }

  /** Every chunk sent is acknowledged in the end. */
  lemma {:induction false} ChunkAcked(w: World, f: Schedule, i: nat, n: nat) returns (j: nat)
    requires GoodRun(w, f) && WellFormed(w.net) && n < |At(w, f, i).net.tx.chunks|
    ensures i <= j && At(w, f, j).net.tx.base > n
    decreases n + 1 - At(w, f, i).net.tx.base
  {
    hide At, Act, Good;
    j := i;
    var b := At(w, f, i).net.tx.base;
    if b <= n {
      NeverStuck(w, f, i, b);
      var k: nat :| i <= k && At(w, f, k).net.tx.base != b;
      RunGrows(w, f, i, k);
      j := ChunkAcked(w, f, k, n);
    }
  }

  // ----- every accepted message is received -----

  /** The chunks of the first `n` messages. */
  ghost function ChunksOf(w: World, n: nat): nat
    requires AllSendable(w.accepted) && n <= |w.accepted|
  {
    |AllChunks(w.accepted[..n])|
  }

  lemma GoodParts(w: World)
    requires Good(w)
    ensures AllSendable(w.accepted) && |w.receipts| <= |w.accepted|
    ensures |w.net.tx.chunks| + |w.todo| == |AllChunks(w.accepted)|
  {
  }

  lemma FewerChunks(w: World, n: nat)
    requires AllSendable(w.accepted) && n <= |w.accepted|
    ensures ChunksOf(w, n) <= |AllChunks(w.accepted)|
  {
    assert w.accepted == w.accepted[..n] + w.accepted[n..];
    AllChunksAppend(w.accepted[..n], w.accepted[n..]);
  }

  /** Later worlds have the same first messages. */
  lemma SameMessages(w: World, f: Schedule, i: nat, j: nat, n: nat)
    requires GoodRun(w, f) && WellFormed(w.net) && i <= j && n <= |At(w, f, i).accepted|
    ensures n <= |At(w, f, j).accepted| && At(w, f, j).accepted[..n] == At(w, f, i).accepted[..n]
    ensures AllSendable(At(w, f, i).accepted) && AllSendable(At(w, f, j).accepted)
    ensures ChunksOf(At(w, f, j), n) == ChunksOf(At(w, f, i), n)
  {
    hide At, Good, Fair;
    StaysGood(w, f, i);
    StaysGood(w, f, j);
    GoodParts(At(w, f, i));
    GoodParts(At(w, f, j));
    RunGrows(w, f, i, j);
  }

  /** The chunks of a message accepted all go out. */
  lemma {:induction false} ChunksGo(w: World, f: Schedule, i: nat, n: nat) returns (j: nat)
    requires GoodRun(w, f) && WellFormed(w.net) && n <= |At(w, f, i).accepted| && AllSendable(At(w, f, i).accepted)
    ensures i <= j && |At(w, f, j).net.tx.chunks| >= ChunksOf(At(w, f, i), n)
    decreases ChunksOf(At(w, f, i), n) - |At(w, f, i).net.tx.chunks|
  {
    hide At, Act, Good, ChunksOf;
    j := NextTime(w, f, Pushes, i);
    SameMessages(w, f, i, j, n);
    RunGrows(w, f, i, j);
    if |At(w, f, j).net.tx.chunks| < ChunksOf(At(w, f, i), n) {
      StaysGood(w, f, j);
      GoodParts(At(w, f, j));
      FewerChunks(At(w, f, j), n);
      PushIsSend(At(w, f, j));
      AtNext(w, f, j);
      SameMessages(w, f, i, j + 1, n);
      j := ChunksGo(w, f, j + 1, n);
    }
  }

  /** What has come holds the first `n` messages once all their chunks have come. */
  lemma EnoughCame(w: World, n: nat)
    requires Good(w) && n <= |w.accepted| && w.net.rx.Next() >= ChunksOf(w, n)
    ensures |w.net.rx.taken| + |w.net.rx.buf| >= |Stream(w.accepted[..n])|
  {
    hide Inv, RecvOk, Stream, AllChunks;
    var ms, rx := w.accepted, w.net.rx;
    ArrivedIsPrefix(w);
    AllChunksCarry(ms[..n]);
    assert ms == ms[..n] + ms[n..];
    AllChunksAppend(ms[..n], ms[n..]);
    var enough := AllChunks(ms[..n]);
    assert rx.pushed[..|enough|] == enough;
    FlattenPrefix(rx.pushed, |enough|);
  }

  /** How much has been taken: the messages received and, inside a message, its header. */
  lemma TakenIs(w: World)
    requires Good(w)
    ensures AllSendable(w.accepted) && |w.receipts| <= |w.accepted|
    ensures var r := |w.receipts|;
      && |w.net.rx.taken| == |Stream(w.accepted[..r])| + (if w.cursor.In? then MSG_HDR else 0)
      && (w.cursor.In? ==> r < |w.accepted| && w.cursor.len == |w.accepted[r]|)
  {
    hide Inv, SendOk, Stream, Sendable;
    GoodParts(w);
  }

  /** A receiver to which all of message `k` has come does not wait before it has given it out. */
  lemma NotWaiting(w: World, k: nat)
    requires Good(w) && k < |w.accepted| && |w.receipts| <= k && w.net.rx.Next() >= ChunksOf(w, k + 1)
    ensures !Waiting(w)
  {
    hide Good, ChunksOf, Stream, Sendable, AllSendable;
    TakenIs(w);
    EnoughCame(w, k + 1);
    StreamGrows(w.accepted, |w.receipts|, k + 1);
  }

  /** What has been taken before message `k` is received lies before its end. */
  lemma TakenBefore(w: World, k: nat)
    requires Good(w) && k < |w.accepted| && |w.receipts| <= k
    ensures |w.net.rx.taken| <= |Stream(w.accepted[..k + 1])|
  {
    hide Good, Stream, Sendable;
    TakenIs(w);
    StreamGrows(w.accepted, |w.receipts|, k + 1);
  }

  /** Each receive call takes more, until message `k` is received. */
  lemma {:induction false} ComesToReceive(w: World, f: Schedule, i: nat, k: nat) returns (j: nat)
    requires GoodRun(w, f) && WellFormed(w.net) && k < |At(w, f, i).accepted| && AllSendable(At(w, f, i).accepted)
    requires At(w, f, i).net.rx.Next() >= ChunksOf(At(w, f, i), k + 1)
    ensures i <= j && |At(w, f, j).receipts| > k
    decreases |Stream(At(w, f, i).accepted[..k + 1])| - |At(w, f, i).net.rx.taken|
  {
    hide At, Act, Good, ChunksOf, Waiting, Stream;
    j := NextTime(w, f, Receives, i);
    RunGrows(w, f, i, j);
    if |At(w, f, j).receipts| <= k {
      StaysGood(w, f, j);
      SameMessages(w, f, i, j, k + 1);
      NotWaiting(At(w, f, j), k);
      TakesMore(At(w, f, j), f(j));
      AtNext(w, f, j);
      SameMessages(w, f, i, j + 1, k + 1);
      RunGrows(w, f, i, j + 1);
      if |At(w, f, j + 1).receipts| <= k {
        StaysGood(w, f, j + 1);
        TakenBefore(At(w, f, j + 1), k);
        j := ComesToReceive(w, f, j + 1, k);
      } else {
        j := j + 1;
      }
    }
  }

  lemma TakesMore(w: World, a: Action)
    requires Good(w) && !Waiting(w) && a.Recv?
    ensures |Act(w, a).net.rx.taken| > |w.net.rx.taken|
  {
    ReceiveTakes(w, a.maxLen);
  }

  lemma MessageHasChunks(w: World, k: nat)
    requires AllSendable(w.accepted) && k < |w.accepted|
    ensures ChunksOf(w, k + 1) >= 1
  {
    assert w.accepted[..k + 1][0] == w.accepted[0];
    ChunksCarry(w.accepted[0]);
  }

  /** Every message accepted in a fair run is received in the end. */
  lemma MessageReceived(w: World, f: Schedule, i: nat, k: nat) returns (j: nat)
    requires GoodRun(w, f) && WellFormed(w.net) && k < |At(w, f, i).accepted|
    ensures i <= j && |At(w, f, j).receipts| > k
  {
    hide At, Good, ChunksOf, Fair;
    SameMessages(w, f, i, i, k + 1);
    MessageHasChunks(At(w, f, i), k);
    var n := ChunksOf(At(w, f, i), k + 1);
    var s := ChunksGo(w, f, i, k + 1);
    var r := ChunkAcked(w, f, s, n - 1);
    StaysGood(w, f, r);
    BaseIsTaken(At(w, f, r));
    SameMessages(w, f, i, r, k + 1);
    j := ComesToReceive(w, f, r, k);
  }

  /**
    Liveness: from the start, in every fair run, whatever is lost on the way and however much is sent meanwhile, every
    message accepted by moment `i` is received at some later moment, whole, in its place and as it was sent, unless the
    call that received it offered too little room.
   */
  lemma EveryMessageArrives(cap: nat, maxMsg: nat, window: nat, f: Schedule, i: nat, k: nat) returns (j: nat)
    requires window <= WINDOW && cap >= maxMsg + MSG_HDR && Fair(Start(cap, maxMsg, window), f)
    requires k < |At(Start(cap, maxMsg, window), f, i).accepted|
    ensures i <= j
    ensures var w := At(Start(cap, maxMsg, window), f, j);
      && k < |w.receipts| && k < |w.accepted| && w.accepted[k] == At(Start(cap, maxMsg, window), f, i).accepted[k]
      && Right(w.receipts[k], w.accepted[k])
  {
    hide At, Fair;
    var w := Start(cap, maxMsg, window);
    StartGood(cap, maxMsg, window);
    j := MessageReceived(w, f, i, k);
    StaysGood(w, f, j);
    RunGrows(w, f, i, j);
  }

  // ----- fairness rules no finite run out -----

  /** What nodes with nothing to do go on doing. */
  function Idle(k: nat): Action {
    if k % 3 == 0 then PushChunk else if k % 3 == 1 then Action.Recv(0) else Link(Resend(1))
  }

  /** First `actions`, then nothing but idling. */
  function Idling(actions: seq<Action>): Schedule {
    (i: nat) => if i < |actions| then actions[i] else Idle(i - |actions|)
  }

  ghost predicate AtRest(w: World) {
    WellFormed(w.net) && !w.cut && w.todo == [] && w.net.tx.Pending() == 0
  }

  lemma RestStays(w: World, k: nat)
    requires AtRest(w)
    ensures AtRest(Act(w, Idle(k)))
    ensures Act(w, Idle(k)).net.dataNo == w.net.dataNo && Act(w, Idle(k)).net.back == w.net.back
  {
    hide Messages.Recv;
  }

  lemma {:induction false} PrefixRun(w: World, actions: seq<Action>, i: nat)
    requires WellFormed(w.net) && i <= |actions|
    ensures At(w, Idling(actions), i) == RunWorld(w, actions[..i])
  {
    hide Act;
    if i > 0 {
      PrefixRun(w, actions, i - 1);
      assert actions[..i] == actions[..i - 1] + [actions[i - 1]];
      RunAppend(w, actions[..i - 1], [actions[i - 1]]);
      OneAction(RunWorld(w, actions[..i - 1]), actions[i - 1]);
    }
  }

  lemma OneAction(w: World, a: Action)
    requires WellFormed(w.net)
    ensures RunWorld(w, [a]) == Act(w, a)
  {
    assert [a][1..] == [];
  }

  lemma {:induction false} RestAt(w: World, actions: seq<Action>, i: nat)
    requires WellFormed(w.net) && AtRest(RunWorld(w, actions)) && i >= |actions|
    ensures AtRest(At(w, Idling(actions), i))
    decreases i
  {
    hide Act, RunWorld, AtRest;
    if i == |actions| {
      PrefixRun(w, actions, i);
      assert actions[..i] == actions;
    } else {
      RestAt(w, actions, i - 1);
      RestStays(At(w, Idling(actions), i - 1), i - 1 - |actions|);
    }
  }

  lemma NeverCut(w: World, actions: seq<Action>, i: nat)
    requires WellFormed(w.net) && AtRest(RunWorld(w, actions))
    ensures !At(w, Idling(actions), i).cut
  {
    hide Act, At;
    if i < |actions| {
      PrefixRun(w, actions, i);
      assert actions == actions[..i] + actions[i..];
      RunAppend(w, actions[..i], actions[i..]);
      if RunWorld(w, actions[..i]).cut { CutStays(RunWorld(w, actions[..i]), actions[i..]); }
    } else {
      RestAt(w, actions, i);
    }
  }

  /** At rest nothing is put on either wire. */
  lemma NothingPut(w: World, actions: seq<Action>, k: Mark)
    requires WellFormed(w.net) && AtRest(RunWorld(w, actions)) && (k.PutsData? || k.PutsAck?)
    ensures !Often(w, Idling(actions), k)
  {
    hide Act, At, RunWorld;
    var f := Idling(actions);
    if Later(w, f, k, |actions|) {
      var j: nat :| |actions| <= j && DoesAt(w, f, k, j);
      RestAt(w, actions, j);
      RestStays(At(w, f, j), j - |actions|);
      assert false;
    }
  }

  /** Idling pushes, receives and retries again and again. */
  lemma IdleOften(w: World, actions: seq<Action>, k: Mark)
    requires WellFormed(w.net) && (k.Pushes? || k.Receives? || k.Retries?)
    ensures Often(w, Idling(actions), k)
  {
    hide Act, At;
    var f := Idling(actions);
    forall i: nat
      ensures Later(w, f, k, i)
    {
      var j := 3 * i + (if k.Pushes? then 0 else if k.Receives? then 1 else 2);
      assert f(|actions| + j) == Idle(j);
      assert DoesAt(w, f, k, |actions| + j);
    }
  }

  /** Once all is delivered and acknowledged, idling is fair. */
  lemma IdlingIsFair(w: World, actions: seq<Action>)
    requires WellFormed(w.net) && AtRest(RunWorld(w, actions))
    ensures Fair(w, Idling(actions))
  {
    hide At, Often, AtRest, RunWorld, Idling;
    var f := Idling(actions);
    IdleOften(w, actions, Pushes);
    IdleOften(w, actions, Receives);
    IdleOften(w, actions, Retries);
    forall n: nat
      ensures !Often(w, f, PutsData(n)) && !Often(w, f, PutsAck(n))
    {
      NothingPut(w, actions, PutsData(n));
      NothingPut(w, actions, PutsAck(n));
    }
    forall i: nat
      ensures !At(w, f, i).cut
    {
      NeverCut(w, actions, i);
    }
  }

  /** Every finite run in which no sendMsg call was cut off is the beginning of a fair one. */
  lemma EveryRunExtends(cap: nat, maxMsg: nat, window: nat, actions: seq<Action>) returns (f: Schedule)
    requires window <= WINDOW && cap >= maxMsg + MSG_HDR && !RunWorld(Start(cap, maxMsg, window), actions).cut
    ensures Fair(Start(cap, maxMsg, window), f) && forall i :: 0 <= i < |actions| ==> f(i) == actions[i]
  {
    hide RunWorld, Fair;
    var w := Start(cap, maxMsg, window);
    NothingWedges(cap, maxMsg, window, actions);
    var more :| Finishes(RunWorld(w, actions), more);
    RunAppend(w, actions, more);
    IdlingIsFair(w, actions + more);
    f := Idling(actions + more);
  }
}
