/**
  Nothing wedges the stream: once the application has taken what it can, the next chunk always fits the app
  buffer, and from every reachable state some finite continuation delivers every accepted message.
 */
module Progress {
  import opened Wire
  import opened SeqSpace
  import opened GoBackN
  import opened Messages
  import opened EndToEnd

  /** `recvMsg` would return nothing and change nothing. */
  predicate Waiting(w: World) {
    if w.cursor.Between? then |w.net.rx.buf| < MSG_HDR else |w.net.rx.buf| < w.cursor.len
  }

  // ----- chunk boundaries and message boundaries -----

  /** Where chunk `n` of the accepted stream lies: chunk `i` of message `j`, behind `j` whole messages and `i` chunks. */
  ghost predicate LiesAt(ms: seq<seq<byte>>, n: nat, j: nat, i: nat)
    requires AllSendable(ms)
  {
    && j < |ms| && i < |Chunks(ms[j])| && n < |AllChunks(ms)|
    && AllChunks(ms)[n] == Chunks(ms[j])[i]
    && Flatten(AllChunks(ms)[..n]) == Stream(ms[..j]) + Flatten(Chunks(ms[j])[..i])
  }

  lemma LiesInFirst(ms: seq<seq<byte>>, n: nat)
    requires AllSendable(ms) && ms != [] && n < |Chunks(ms[0])|
    ensures LiesAt(ms, n, 0, n)
  {
    var first := Chunks(ms[0]);
    assert AllChunks(ms) == first + AllChunks(ms[1..]);
    assert AllChunks(ms)[..n] == first[..n];
    assert ms[..0] == [];
  }

  lemma LiesLater(ms: seq<seq<byte>>, n: nat, j: nat, i: nat)
    requires AllSendable(ms) && ms != [] && |Chunks(ms[0])| <= n && LiesAt(ms[1..], n - |Chunks(ms[0])|, j, i)
    ensures LiesAt(ms, n, j + 1, i)
  {
    hide Chunks, Encode, Sendable;
    var first, rest := Chunks(ms[0]), ms[1..];
    var all := AllChunks(rest);
    assert AllChunks(ms) == first + all;
    var n' := n - |first|;
    assert (first + all)[..n] == first + all[..n'];
    FlattenAppend(first, all[..n']);
    ChunksCarry(ms[0]);
    assert ms[..j + 1][1..] == rest[..j] && ms[..j + 1][0] == ms[0];
    Assoc(Encode(ms[0]), Stream(rest[..j]), Flatten(Chunks(rest[j])[..i]));
  }

  lemma {:induction false} Locate(ms: seq<seq<byte>>, n: nat) returns (j: nat, i: nat)
    requires AllSendable(ms) && n < |AllChunks(ms)|
    ensures LiesAt(ms, n, j, i)
  {
    var first := |Chunks(ms[0])|;
    assert AllChunks(ms) == Chunks(ms[0]) + AllChunks(ms[1..]);
    if n < first {
      LiesInFirst(ms, n);
      j, i := 0, n;
    } else {
      var jj, ii := Locate(ms[1..], n - first);
      LiesLater(ms, n, jj, ii);
      j, i := jj + 1, ii;
    }
  }

  /** A chunk and what precedes it in its message: nothing before the first, the header and full chunks before the others. */
  lemma ChunkPart(m: seq<byte>, i: nat)
    requires Sendable(m) && i < |Chunks(m)|
    ensures i == 0 ==> Flatten(Chunks(m)[..i]) == [] && |Chunks(m)[0]| <= |m| + MSG_HDR
    ensures i > 0 ==>
      && |Flatten(Chunks(m)[..i])| == MSG_HDR + (i - 1) * MAX_CHUNK
      && (i - 1) * MAX_CHUNK + |Chunks(m)[i]| <= |m|
      && |Chunks(m)[i]| >= 1
  {
    if i > 0 {
      SplitAt(m, i - 1);
      SplitBefore(m, i - 1);
      SplitCarries(m);
      assert Chunks(m)[..i] == [Header(m)] + Split(m)[..i - 1];
      FlattenAppend([Header(m)], Split(m)[..i - 1]);
      assert Flatten([Header(m)]) == Header(m) + Flatten([Header(m)][1..]);
    }
  }

  lemma OneLonger(ms: seq<seq<byte>>, a: nat)
    requires AllSendable(ms) && a < |ms|
    ensures |Stream(ms[..a])| + MSG_HDR + |ms[a]| == |Stream(ms[..a + 1])|
  {
    StreamAt(ms, a);
  }

  lemma {:induction false} StreamGrows(ms: seq<seq<byte>>, a: nat, b: nat)
    requires AllSendable(ms) && a < b <= |ms|
    ensures |Stream(ms[..a])| + MSG_HDR + |ms[a]| <= |Stream(ms[..b])|
    decreases b - a
  {
    OneLonger(ms, a);
    if a + 1 < b {
      StreamGrows(ms, a + 1, b);
    }
  }

  /** The message a waiting receiver is in, or about to read, is the one its next chunk belongs to. */
  lemma SameMessage(w: World, j: nat, i: nat)
    requires Good(w) && Waiting(w) && LiesAt(w.accepted, w.net.rx.Next(), j, i)
    ensures j == |w.receipts|
    ensures |w.net.rx.buf| == if i == 0 then 0 else (i - 1) * MAX_CHUNK
  {
    var ms, k, rx := w.accepted, |w.receipts|, w.net.rx;
    var part := Flatten(Chunks(ms[j])[..i]);
    ArrivedIsPrefix(w);
    ChunkPart(ms[j], i);
    assert |rx.taken| + |rx.buf| == |Stream(ms[..j])| + |part|;
    if k < j {
      StreamGrows(ms, k, j);
    } else if j < k {
      StreamGrows(ms, j, k);
    }
  }

  /**
    Flow control cannot deadlock: whenever `recvMsg` has nothing to give, the next chunk in order passes the
    all-or-nothing admission test, as long as the app buffer can hold one longest message and its header.
   */
  lemma NextChunkFits(w: World)
    requires Good(w) && Waiting(w) && w.net.rx.cap >= w.maxMsg + MSG_HDR
    requires w.net.rx.Next() < |AllChunks(w.accepted)|
    ensures |w.net.rx.buf| + |AllChunks(w.accepted)[w.net.rx.Next()]| <= w.net.rx.cap
  {
    var n := w.net.rx.Next();
    var j, i := Locate(w.accepted, n);
    SameMessage(w, j, i);
    ChunkPart(w.accepted[j], i);
  }

  // ----- everything accepted can still be delivered -----

  /**
    Some continuation, in which no call is cut off and nothing new is accepted, ends with every accepted message
    received and nothing left to send or to acknowledge; each one received from here on is received whole.
   */
  ghost predicate CanFinish(w: World)
    requires WellFormed(w.net)
  {
    exists actions: seq<Action> :: Finishes(w, actions)
  }

  ghost predicate Finishes(w: World, actions: seq<Action>)
    requires WellFormed(w.net)
  {
    var r := RunWorld(w, actions);
    && !r.cut && r.accepted == w.accepted && r.todo == [] && r.net.tx.Pending() == 0
    && |r.receipts| == |w.accepted| && w.receipts <= r.receipts
    && forall i :: |w.receipts| <= i < |r.receipts| ==> r.receipts[i].result == Got(w.accepted[i])
  }

  /** An action that accepts nothing and records nothing wrong may come first. */
  lemma FinishAfter(w: World, a: Action)
    requires WellFormed(w.net) && CanFinish(Act(w, a)) && Act(w, a).accepted == w.accepted
    requires |Act(w, a).receipts| <= |w.accepted| && w.receipts <= Act(w, a).receipts
    requires forall i :: |w.receipts| <= i < |Act(w, a).receipts| ==> Act(w, a).receipts[i].result == Got(w.accepted[i])
    ensures CanFinish(w)
  {
    var rest :| Finishes(Act(w, a), rest);
    assert ([a] + rest)[1..] == rest;
    var r := RunWorld(w, [a] + rest);
    assert r == RunWorld(Act(w, a), rest);
    assert Finishes(w, [a] + rest);
  }

  /** `r` is reachable from `w`, and finishing from `r` finishes `w`. */
  ghost predicate Leads(w: World, r: World) {
    && Good(w) && Good(r)
    && r.maxMsg == w.maxMsg && r.net.rx.cap == w.net.rx.cap
    && (CanFinish(r) ==> CanFinish(w))
  }

  /** A step of the network. */
  lemma TakeStep(w: World, e: Event) returns (r: World)
    requires Good(w) && OwnStep(e)
    ensures Leads(w, r) && r == w.(net := Step(w.net, e))
  {
    r := Act(w, Link(e));
    ActKeepsGood(w, Link(e));
    StepKeepsCap(w.net, e);
    if CanFinish(r) {
      FinishAfter(w, Link(e));
    }
  }

  lemma StepKeepsCap(s: Net, e: Event)
    requires WellFormed(s)
    ensures Step(s, e).rx.cap == s.rx.cap
  {
  }

  /** One frame, in either direction, is lost. */
  lemma LoseOne(w: World) returns (r: World)
    requires Good(w) && |w.net.data| + |w.net.back| > 0
    ensures Leads(w, r) && r.todo == w.todo && r.net.tx == w.net.tx
    ensures |r.net.data| + |r.net.back| < |w.net.data| + |w.net.back|
  {
    if w.net.data != [] {
      r := TakeStep(w, LoseData(0));
    } else {
      r := TakeStep(w, LoseBack(0));
    }
  }

  /** The receiver answers a resend of the base with its ACK, whether it has the chunk already or takes it now. */
  lemma BaseIsAcked(s: Net)
    requires Inv(s) && s.data == [] && s.tx.Pending() > 0
    requires s.rx.Next() == s.tx.base ==> |s.rx.buf| + |s.tx.chunks[s.tx.base]| <= s.rx.cap
    ensures var r := Step(Step(s, Resend(1)), DeliverData);
      && r.tx == s.tx
      && exists n: uint16 :: r.back == s.back + [Ack(SeqOf(s.tx.base), n)] && r.backNo == s.backNo + [s.tx.base]
  {
    var m := Step(s, Resend(1));
    assert m.data == [s.tx.Frame(s.tx.base + 0)] && m.dataNo == [s.tx.base];
    StepKeepsInv(s, Resend(1));
    ReceiverSeesTrueOrder(m, 0);
  }

  /** An ACK for the base frees it. */
  lemma AckFreesBase(s: Net)
    requires Inv(s) && s.tx.Pending() > 0 && s.back != [] && s.back[0].Ack? && s.backNo[0] == s.tx.base
    ensures Step(s, DeliverBack(0)).tx == s.tx.(base := s.tx.base + 1)
  {
    SenderSeesTrueChunk(s, 0);
  }

  lemma RoundFreesBase(s: Net)
    requires Inv(s) && s.data == [] && s.back == [] && s.tx.Pending() > 0
    requires s.rx.Next() == s.tx.base ==> |s.rx.buf| + |s.tx.chunks[s.tx.base]| <= s.rx.cap
    ensures Step(Step(Step(s, Resend(1)), DeliverData), DeliverBack(0)).tx == s.tx.(base := s.tx.base + 1)
  {
    BaseIsAcked(s);
    StepKeepsInv(s, Resend(1));
    StepKeepsInv(Step(s, Resend(1)), DeliverData);
    AckFreesBase(Step(Step(s, Resend(1)), DeliverData));
  }

  /** When nothing is pending at the receiver's cursor, what the base resend needs is room, and there is room. */
  lemma BaseFits(w: World)
    requires Good(w) && Waiting(w) && w.net.rx.cap >= w.maxMsg + MSG_HDR
    requires w.net.tx.Pending() > 0 && w.net.rx.Next() == w.net.tx.base
    ensures |w.net.rx.buf| + |w.net.tx.chunks[w.net.tx.base]| <= w.net.rx.cap
  {
    assert AllChunks(w.accepted)[w.net.tx.base] == w.net.tx.chunks[w.net.tx.base];
    NextChunkFits(w);
  }

  /** On quiet wires, one RTO round of a single frame frees the base: resend it, deliver it, deliver the answer. */
  lemma OneRound(w: World) returns (r: World)
    requires Good(w) && Waiting(w) && w.net.rx.cap >= w.maxMsg + MSG_HDR
    requires w.net.data == [] && w.net.back == [] && w.net.tx.Pending() > 0
    ensures Leads(w, r) && r.todo == w.todo && r.net.tx == w.net.tx.(base := w.net.tx.base + 1)
  {
    if w.net.rx.Next() == w.net.tx.base {
      BaseFits(w);
    }
    RoundFreesBase(w.net);
    var w1 := TakeStep(w, Resend(1));
    var w2 := TakeStep(w1, DeliverData);
    r := TakeStep(w2, DeliverBack(0));
  }

  /** A call that has something to do takes bytes, and what it returns, if anything, is the next message. */
  lemma ReceiveTakes(w: World, maxLen: nat)
    requires Good(w) && !Waiting(w)
    ensures var r := Receive(w, maxLen);
      && |r.net.rx.buf| < |w.net.rx.buf| && |r.net.rx.taken| > |w.net.rx.taken|
      && r == w.(net := w.net.(rx := r.net.rx), cursor := r.cursor, receipts := r.receipts)
      && r.net.rx.cap == w.net.rx.cap
      && w.receipts <= r.receipts
      && forall i :: |w.receipts| <= i < |r.receipts| ==> r.receipts[i].maxLen == maxLen
  {
    BeginKeepsGood(w);
    var n := if w.cursor.Between? && |w.net.rx.buf| >= MSG_HDR then MSG_HDR else 0;
    var c :| Begin(w.cursor, w.net.rx.buf, w.maxMsg) == Some((c, w.net.rx.buf[n..])) && Good(Took(w, n, c));
    ReceiveIs(w, maxLen, n, c);
  }

  lemma OneReceive(w: World) returns (r: World)
    requires Good(w) && !Waiting(w)
    ensures Leads(w, r) && r.todo == w.todo && r.net.tx == w.net.tx
    ensures r.net.data == w.net.data && r.net.back == w.net.back && |r.net.rx.buf| < |w.net.rx.buf|
  {
    hide Receive, CanFinish;
    r := Receive(w, w.maxMsg);
    ReceiveTakes(w, w.maxMsg);
    ReceiveKeepsGood(w, w.maxMsg);
    if CanFinish(r) {
      FinishAfter(w, Action.Recv(w.maxMsg));
    }
  }

  /** The next chunk of the message in progress goes out. */
  lemma OnePush(w: World) returns (r: World)
    requires Good(w) && w.todo != []
    ensures Leads(w, r) && |r.todo| == |w.todo| - 1 && r.net.tx.Pending() == w.net.tx.Pending() + 1
  {
    PushIsSend(w);
    r := Act(w, PushChunk);
    PushKeepsGood(w);
    if CanFinish(r) {
      FinishAfter(w, PushChunk);
    }
  }

  /** With everything sent and acknowledged, a waiting receiver has received every message. */
  lemma AllReceived(w: World)
    requires Good(w) && Waiting(w) && w.todo == [] && w.net.tx.Pending() == 0
    ensures CanFinish(w)
  {
    var ms, k := w.accepted, |w.receipts|;
    ArrivedIsPrefix(w);
    AllChunksCarry(ms);
    assert w.net.rx.pushed == AllChunks(ms);
    assert ms[..|ms|] == ms;
    assert |w.net.rx.taken| + |w.net.rx.buf| == |Stream(ms)|;
    if k < |ms| {
      StreamGrows(ms, k, |ms|);
      assert false;
    }
    assert Finishes(w, []);
  }

  /** The chunks to send and to acknowledge count down, then the frames to lose, then the bytes to take. */
  lemma {:induction false} Progresses(w: World)
    requires Good(w) && w.net.rx.cap >= w.maxMsg + MSG_HDR
    ensures CanFinish(w)
    decreases 2 * |w.todo| + w.net.tx.Pending(), |w.net.data| + |w.net.back|, |w.net.rx.buf|
  {
    if |w.net.data| + |w.net.back| > 0 {
      var r := LoseOne(w);
      Progresses(r);
    } else if !Waiting(w) {
      var r := OneReceive(w);
      Progresses(r);
    } else if w.net.tx.Pending() > 0 {
      var r := OneRound(w);
      Progresses(r);
    } else if w.todo != [] {
      var r := OnePush(w);
      Progresses(r);
    } else {
      AllReceived(w);
    }
  }

  /**
    No wedge: from every state any run can reach without cutting a message off, with an app buffer that holds one
    longest message and its header, the sender's own retries and the receiver's own calls can deliver everything
    accepted so far, whatever has been lost until now.
   */
  lemma NothingWedges(cap: nat, maxMsg: nat, window: nat, actions: seq<Action>)
    requires window <= WINDOW && cap >= maxMsg + MSG_HDR
    requires !RunWorld(Start(cap, maxMsg, window), actions).cut
    ensures CanFinish(RunWorld(Start(cap, maxMsg, window), actions))
  {
    StartGood(cap, maxMsg, window);
    RunKeepsGood(Start(cap, maxMsg, window), actions);
    RunKeepsShape(Start(cap, maxMsg, window), actions);
    Progresses(RunWorld(Start(cap, maxMsg, window), actions));
  }

  lemma ActKeepsShape(w: World, a: Action)
    requires WellFormed(w.net)
    ensures Act(w, a).net.rx.cap == w.net.rx.cap && Act(w, a).maxMsg == w.maxMsg
  {
    hide RxPayload, Messages.Recv, Replay;
    match a
    case Link(e) => StepKeepsCap(w.net, e);
    case _ =>
  }

  lemma {:induction false} RunKeepsShape(w: World, actions: seq<Action>)
    requires WellFormed(w.net)
    ensures var r := RunWorld(w, actions);
      r.net.rx.cap == w.net.rx.cap && r.maxMsg == w.maxMsg
    decreases |actions|
  {
    hide Act;
    if actions != [] {
      ActKeepsShape(w, actions[0]);
      RunKeepsShape(Act(w, actions[0]), actions[1..]);
    }
  }
}
