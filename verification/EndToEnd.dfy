/**
  The whole data path: one application sends messages, another receives them, and `GoBackN`'s lossy network
  lies between. Messages are cut into chunks, chunks are numbered, lost, repeated and put in order, and the
  byte stream is cut back into messages. Proved: what comes out is what was accepted, nothing can wedge the
  stream, and from every reachable state everything accepted can still be delivered.
 */
module EndToEnd {
  import opened Wire
  import opened SeqSpace
  import opened GoBackN
  import opened Messages
  import Crc

  /** What one `recvMsg` call returned, and the room its caller offered. */
  datatype Receipt = Receipt(result: RecvResult, maxLen: nat)

  /**
    `accepted` are the messages `sendMsg` has taken, in order; `todo` are the chunks of the last one still to
    be sent. `cut` records that a `sendMsg` call gave up in the middle of a message and returned false.
   */
  datatype World = World(net: Net, maxMsg: nat, window: nat,
                         accepted: seq<seq<byte>>, todo: seq<seq<byte>>, cut: bool,
                         cursor: Cursor, receipts: seq<Receipt>)

  datatype Action =
    | SendMsg(m: seq<byte>)
    | PushChunk              // the chunk loop of the sendMsg call in progress
    | Abort                  // that call gives up: ring stall, or the link left OK
    | Link(event: Event)     // the network's own steps
    | Recv(maxLen: nat)

  function Start(cap: nat, maxMsg: nat, window: nat): World {
    World(Init(cap), maxMsg, window, [], [], false, Between, [])
  }

  /** Steps that belong to the network alone; sending and draining happen through the two API calls. */
  predicate OwnStep(e: Event) {
    !e.Send? && !e.Drain?
  }

  /** The admission gate of `sendMsg`; a refused call changes nothing. */
  predicate Admits(w: World, m: seq<byte>)
    requires WellFormed(w.net)
  {
    && w.todo == [] && Sendable(m) && |m| <= w.maxMsg
    && w.net.tx.Pending() + ChunksForMsgLen(|m|) <= w.window
  }

  /** One `recvMsg` call; an answer other than "nothing yet" is recorded. */
  function Receive(w: World, maxLen: nat): World
    requires WellFormed(w.net)
  {
    var rx := w.net.rx;
    var (c, buf, result) := Messages.Recv(w.cursor, rx.buf, w.maxMsg, maxLen);
    var gone := if |buf| <= |rx.buf| then rx.buf[..|rx.buf| - |buf|] else [];
    w.(net := w.net.(rx := rx.(taken := rx.taken + gone, buf := buf)),
       cursor := c,
       receipts := if result == Nothing then w.receipts else w.receipts + [Receipt(result, maxLen)])
  }

  function Act(w: World, a: Action): (r: World)
    requires WellFormed(w.net)
    ensures WellFormed(r.net)
  {
    match a
    case SendMsg(m) => if Admits(w, m) then w.(accepted := w.accepted + [m], todo := Chunks(m)) else w
    case PushChunk =>
      if w.todo != [] then w.(net := SendChunk(w.net, w.todo[0]), todo := w.todo[1..]) else w
    case Abort => if w.todo != [] then w.(todo := [], cut := true) else w
    case Link(e) => if OwnStep(e) then w.(net := Step(w.net, e)) else w
    case Recv(maxLen) => Receive(w, maxLen)
  }

  function RunWorld(w: World, actions: seq<Action>): (r: World)
    requires WellFormed(w.net)
    ensures WellFormed(r.net)
    decreases |actions|
  {
    if actions == [] then w else RunWorld(Act(w, actions[0]), actions[1..])
  }

  lemma {:induction false} RunAppend(w: World, xs: seq<Action>, ys: seq<Action>)
    requires WellFormed(w.net)
    ensures RunWorld(w, xs + ys) == RunWorld(RunWorld(w, xs), ys)
    decreases |xs|
  {
    if xs == [] {
      assert xs + ys == ys;
    } else {
      assert (xs + ys)[1..] == xs[1..] + ys;
      RunAppend(Act(w, xs[0]), xs[1..], ys);
    }
  }

  // ----- the streams of a list of messages -----

  ghost predicate AllSendable(ms: seq<seq<byte>>) {
    forall i :: 0 <= i < |ms| ==> Sendable(ms[i])
  }

  /** The chunks of all messages, in order. */
  ghost function AllChunks(ms: seq<seq<byte>>): seq<seq<byte>>
    requires AllSendable(ms)
  {
    if ms == [] then [] else Chunks(ms[0]) + AllChunks(ms[1..])
  }

  /** Their bytes. */
  ghost function Stream(ms: seq<seq<byte>>): seq<byte>
    requires AllSendable(ms)
  {
    if ms == [] then [] else Encode(ms[0]) + Stream(ms[1..])
  }

  lemma {:induction false} AllChunksAppend(xs: seq<seq<byte>>, ys: seq<seq<byte>>)
    requires AllSendable(xs) && AllSendable(ys)
    ensures AllChunks(xs + ys) == AllChunks(xs) + AllChunks(ys)
  {
    if xs == [] {
      assert xs + ys == ys;
    } else {
      assert (xs + ys)[1..] == xs[1..] + ys;
      AllChunksAppend(xs[1..], ys);
    }
  }

  lemma {:induction false} StreamAppend(xs: seq<seq<byte>>, ys: seq<seq<byte>>)
    requires AllSendable(xs) && AllSendable(ys)
    ensures Stream(xs + ys) == Stream(xs) + Stream(ys)
  {
    if xs == [] {
      assert xs + ys == ys;
    } else {
      assert (xs + ys)[1..] == xs[1..] + ys;
      StreamAppend(xs[1..], ys);
    }
  }

  lemma {:induction false} AllChunksCarry(ms: seq<seq<byte>>)
    requires AllSendable(ms)
    ensures Flatten(AllChunks(ms)) == Stream(ms)
    ensures ChunkSized(AllChunks(ms))
  {
    if ms != [] {
      ChunksCarry(ms[0]);
      AllChunksCarry(ms[1..]);
      FlattenAppend(Chunks(ms[0]), AllChunks(ms[1..]));
    }
  }

  lemma StreamOne(m: seq<byte>)
    requires Sendable(m)
    ensures Stream([m]) == Encode(m)
  {
    assert [m][1..] == [];
  }

  /** One more message. */
  lemma StreamSnoc(ms: seq<seq<byte>>, k: nat)
    requires AllSendable(ms) && k < |ms|
    ensures Stream(ms[..k + 1]) == Stream(ms[..k]) + Encode(ms[k])
  {
    hide Stream, Encode, Sendable;
    StreamOne(ms[k]);
    StreamAppend(ms[..k], [ms[k]]);
    assert ms[..k + 1] == ms[..k] + [ms[k]];
  }

  /** The byte stream cut at message `k`. */
  lemma StreamAt(ms: seq<seq<byte>>, k: nat)
    requires AllSendable(ms) && k < |ms|
    ensures Stream(ms) == Stream(ms[..k]) + (Encode(ms[k]) + Stream(ms[k + 1..]))
    ensures Stream(ms[..k + 1]) == Stream(ms[..k]) + Encode(ms[k])
  {
    hide Stream, Encode, Sendable;
    StreamSnoc(ms, k);
    StreamAppend(ms[..k + 1], ms[k + 1..]);
    assert ms == ms[..k + 1] + ms[k + 1..];
    Assoc(Stream(ms[..k]), Encode(ms[k]), Stream(ms[k + 1..]));
  }

  /** When two streams share their start, what follows in the longer begins with what follows in the shorter. */
  lemma NextBytes<T>(done: seq<T>, buf: seq<T>, x: seq<T>, rest: seq<T>)
    requires done + buf <= done + (x + rest) && |buf| >= |x|
    ensures buf[..|x|] == x
  {
    forall i | 0 <= i < |x|
      ensures buf[i] == x[i]
    {
      assert (done + buf)[|done| + i] == (done + (x + rest))[|done| + i];
    }
  }

  /** After `k` whole messages, the next six bytes are the header of message `k`. */
  lemma NextHeader(ms: seq<seq<byte>>, k: nat, taken: seq<byte>, buf: seq<byte>)
    requires AllSendable(ms) && k < |ms| && taken == Stream(ms[..k])
    requires taken + buf <= Stream(ms) && |buf| >= MSG_HDR
    ensures buf[..MSG_HDR] == Header(ms[k])
  {
    var m, rest := ms[k], Stream(ms[k + 1..]);
    StreamAt(ms, k);
    Assoc(Header(m), m, rest);
    assert Stream(ms) == taken + (Header(m) + (m + rest));
    NextBytes(taken, buf, Header(m), m + rest);
  }

  /** After that header, the next bytes are the body of message `k`. */
  lemma NextBody(ms: seq<seq<byte>>, k: nat, taken: seq<byte>, buf: seq<byte>)
    requires AllSendable(ms) && k < |ms| && taken == Stream(ms[..k]) + Header(ms[k])
    requires taken + buf <= Stream(ms) && |buf| >= |ms[k]|
    ensures buf[..|ms[k]|] == ms[k]
    ensures taken + buf[..|ms[k]|] == Stream(ms[..k + 1])
  {
    StreamAt(ms, k);
    Assoc(Header(ms[k]), ms[k], Stream(ms[k + 1..]));
    Assoc(Stream(ms[..k]), Header(ms[k]), ms[k] + Stream(ms[k + 1..]));
    NextBytes(taken, buf, ms[k], Stream(ms[k + 1..]));
    Assoc(Stream(ms[..k]), Header(ms[k]), ms[k]);
  }

  // ----- the invariant -----

  /** The sending side: everything sent and still to send is exactly what was accepted, and the rest fits the window. */
  ghost predicate SendOk(w: World)
    requires WellFormed(w.net)
  {
    && AllSendable(w.accepted)
    && (forall i :: 0 <= i < |w.accepted| ==> |w.accepted[i]| <= w.maxMsg)
    && w.net.tx.chunks + w.todo == AllChunks(w.accepted)
    && w.net.tx.Pending() + |w.todo| <= WINDOW
    && w.window <= WINDOW
  }

  /** A call that offered enough room got the message itself; one that did not was told so, and skipped it. */
  ghost predicate Right(r: Receipt, m: seq<byte>) {
    r.result == if |m| <= r.maxLen then Got(m) else Rejected
  }

  /** The receiving side: each receipt is right, and the bytes taken end with the last message or with the next header. */
  ghost predicate RecvOk(w: World)
    requires AllSendable(w.accepted)
  {
    var k := |w.receipts|;
    && k <= |w.accepted|
    && (forall i :: 0 <= i < k ==> Right(w.receipts[i], w.accepted[i]))
    && (w.cursor.Between? ==> w.net.rx.taken == Stream(w.accepted[..k]))
    && (w.cursor.In? ==>
          && k < |w.accepted|
          && w.cursor == In(|w.accepted[k]|, Crc.Crc16(w.accepted[k]))
          && w.net.rx.taken == Stream(w.accepted[..k]) + Header(w.accepted[k]))
  }

  ghost predicate Good(w: World) {
    !w.cut && Inv(w.net) && SendOk(w) && RecvOk(w)
  }

  lemma GoodIs(w: World)
    requires Good(w)
    ensures WellFormed(w.net) && Inv(w.net) && !w.cut
  {
  }

  lemma StartGood(cap: nat, maxMsg: nat, window: nat)
    requires window <= WINDOW
    ensures Good(Start(cap, maxMsg, window))
  {
  }

  lemma FlattenPrefix<T>(ss: seq<seq<T>>, k: nat)
    requires k <= |ss|
    ensures Flatten(ss[..k]) <= Flatten(ss)
  {
    assert ss == ss[..k] + ss[k..];
    FlattenAppend(ss[..k], ss[k..]);
  }

  /** What has reached the receiver is a prefix of the accepted stream. */
  lemma ArrivedIsPrefix(w: World)
    requires Good(w)
    ensures w.net.rx.pushed == AllChunks(w.accepted)[..w.net.rx.Next()]
    ensures w.net.rx.taken + w.net.rx.buf == Flatten(w.net.rx.pushed) <= Stream(w.accepted)
  {
    var all, next := AllChunks(w.accepted), w.net.rx.Next();
    assert w.net.tx.chunks == all[..|w.net.tx.chunks|];
    AllChunksCarry(w.accepted);
    FlattenPrefix(all, next);
  }

  /** Bytes in the buffer between two messages belong to a message not yet received. */
  lemma MoreToCome(w: World)
    requires Good(w) && w.cursor.Between? && w.net.rx.buf != []
    ensures |w.receipts| < |w.accepted|
  {
    ArrivedIsPrefix(w);
    assert |w.net.rx.taken + w.net.rx.buf| <= |Stream(w.accepted)|;
    assert w.accepted[..|w.accepted|] == w.accepted;
  }

  // ----- every step keeps it -----

  /** Taking bytes off the front of the app buffer is a drain. */
  lemma DrainKeepsInv(s: Net, n: nat)
    requires Inv(s) && n <= |s.rx.buf|
    ensures Inv(s.(rx := s.rx.(taken := s.rx.taken + s.rx.buf[..n], buf := s.rx.buf[n..])))
  {
    StepKeepsInv(s, Drain(n));
  }

  lemma AllChunksOne(m: seq<byte>)
    requires Sendable(m)
    ensures AllChunks([m]) == Chunks(m)
  {
    assert [m][1..] == [];
  }

  lemma AcceptKeepsGood(w: World, m: seq<byte>)
    requires Good(w) && Admits(w, m)
    ensures Good(w.(accepted := w.accepted + [m], todo := Chunks(m)))
  {
    hide Inv, Chunks, AllChunks, Stream, Encode, Header, Sendable;
    var r := w.(accepted := w.accepted + [m], todo := Chunks(m));
    ChunksCarry(m);
    AllChunksOne(m);
    AllChunksAppend(w.accepted, [m]);
    assert w.net.tx.chunks == w.net.tx.chunks + w.todo;
    assert r.accepted[..|w.receipts|] == w.accepted[..|w.receipts|];
  }

  /** Inside the window a chunk of an accepted message is never refused. */
  lemma PushIsSend(w: World)
    requires Good(w) && w.todo != []
    ensures 1 <= |w.todo[0]| <= MAX_CHUNK && w.net.tx.Pending() < WINDOW
    ensures Act(w, PushChunk).net.tx.chunks == w.net.tx.chunks + [w.todo[0]]
  {
    AllChunksCarry(w.accepted);
    assert AllChunks(w.accepted)[|w.net.tx.chunks|] == w.todo[0];
  }

  lemma MoveHead<T>(done: seq<T>, todo: seq<T>)
    requires todo != []
    ensures done + [todo[0]] + todo[1..] == done + todo
  {
  }

  lemma PushKeepsSend(w: World, r: World)
    requires WellFormed(w.net) && SendOk(w) && w.todo != []
    requires WellFormed(r.net) && r.net.tx == w.net.tx.(chunks := w.net.tx.chunks + [w.todo[0]])
    requires r.todo == w.todo[1..] && r.accepted == w.accepted && r.maxMsg == w.maxMsg && r.window == w.window
    ensures SendOk(r)
  {
    MoveHead(w.net.tx.chunks, w.todo);
  }

  lemma PushKeepsGood(w: World)
    requires Good(w) && w.todo != []
    ensures Good(Act(w, PushChunk))
  {
    PushIsSend(w);
    PushKeepsSend(w, Act(w, PushChunk));
    SendKeepsInv(w.net, w.todo[0]);
  }

  lemma OwnStepKeepsGood(w: World, e: Event)
    requires Good(w) && OwnStep(e)
    ensures Good(Act(w, Link(e)))
  {
    StepKeepsInv(w.net, e);
    OwnStepKeepsEnds(w.net, e);
  }

  /** The network's own steps touch neither the chunks sent nor the bytes taken, and never add to the window. */
  lemma OwnStepKeepsEnds(s: Net, e: Event)
    requires Inv(s) && OwnStep(e)
    ensures var r := Step(s, e);
      r.tx.chunks == s.tx.chunks && r.tx.base >= s.tx.base && r.rx.taken == s.rx.taken
  {
  }

  /** The world with `n` more bytes taken and the cursor at `c`. */
  ghost function Took(w: World, n: nat, c: Cursor): World
    requires n <= |w.net.rx.buf|
  {
    var rx := w.net.rx;
    w.(net := w.net.(rx := rx.(taken := rx.taken + rx.buf[..n], buf := rx.buf[n..])), cursor := c)
  }

  /** How many bytes `Begin` takes from a believable buffer, and where it leaves the cursor. */
  lemma BeginKeepsGood(w: World)
    requires Good(w)
    ensures var n := if w.cursor.Between? && |w.net.rx.buf| >= MSG_HDR then MSG_HDR else 0;
      exists c :: Begin(w.cursor, w.net.rx.buf, w.maxMsg) == Some((c, w.net.rx.buf[n..])) && Good(Took(w, n, c))
  {
    var rx := w.net.rx;
    if w.cursor.Between? && |rx.buf| >= MSG_HDR {
      ArrivedIsPrefix(w);
      MoreToCome(w);
      NextHeader(w.accepted, |w.receipts|, rx.taken, rx.buf);
      var m := w.accepted[|w.receipts|];
      HdrDecodesEncode(|m|, Crc.Crc16(m));
      DrainKeepsInv(w.net, MSG_HDR);
      assert Good(Took(w, MSG_HDR, In(|m|, Crc.Crc16(m))));
    } else {
      assert rx.taken + rx.buf[..0] == rx.taken && rx.buf[0..] == rx.buf;
      assert Took(w, 0, w.cursor) == w;
    }
  }

  lemma BodyIsNext(w: World)
    requires AllSendable(w.accepted) && RecvOk(w) && w.cursor.In? && |w.net.rx.buf| >= w.cursor.len
    requires w.net.rx.taken + w.net.rx.buf <= Stream(w.accepted)
    ensures w.net.rx.buf[..w.cursor.len] == w.accepted[|w.receipts|]
    ensures w.net.rx.taken + w.net.rx.buf[..w.cursor.len] == Stream(w.accepted[..|w.receipts| + 1])
  {
    NextBody(w.accepted, |w.receipts|, w.net.rx.taken, w.net.rx.buf);
  }

  lemma FinishIsRight(c: Cursor, buf: seq<byte>, maxLen: nat, m: seq<byte>)
    requires Sendable(m) && c == In(|m|, Crc.Crc16(m)) && |buf| >= |m| && buf[..|m|] == m
    ensures var (c', buf', result) := Finish(c, buf, maxLen);
      c' == Between && buf' == buf[|m|..] && Right(Receipt(result, maxLen), m)
  {
  }

  lemma FinishKeepsRecv(w: World, maxLen: nat)
    requires AllSendable(w.accepted) && RecvOk(w) && w.cursor.In? && |w.net.rx.buf| >= w.cursor.len
    requires w.net.rx.taken + w.net.rx.buf <= Stream(w.accepted)
    ensures var (c, buf, result) := Finish(w.cursor, w.net.rx.buf, maxLen);
      RecvOk(Took(w, w.cursor.len, c).(receipts := w.receipts + [Receipt(result, maxLen)]))
  {
    BodyIsNext(w);
    FinishIsRight(w.cursor, w.net.rx.buf, maxLen, w.accepted[|w.receipts|]);
  }

  lemma FinishKeepsGood(w: World, maxLen: nat)
    requires Good(w) && w.cursor.In? && |w.net.rx.buf| >= w.cursor.len
    ensures var (c, buf, result) := Finish(w.cursor, w.net.rx.buf, maxLen);
      Good(Took(w, w.cursor.len, c).(receipts := w.receipts + [Receipt(result, maxLen)]))
  {
    ArrivedIsPrefix(w);
    FinishKeepsRecv(w, maxLen);
    DrainKeepsInv(w.net, w.cursor.len);
  }

  lemma TakeTwice<T>(done: seq<T>, buf: seq<T>, i: nat, j: nat)
    requires i + j <= |buf|
    ensures done + buf[..i] + buf[i..][..j] == done + buf[..i + j]
    ensures buf[i..][j..] == buf[i + j..]
  {
  }

  /** `Finish` answers exactly when the whole body is there, and then takes it. */
  lemma FinishParts(c: Cursor, buf: seq<byte>, maxLen: nat)
    ensures var (c', buf', result) := Finish(c, buf, maxLen);
      if c.In? && |buf| >= c.len then result != Nothing && c' == Between && buf' == buf[c.len..]
      else result == Nothing && c' == c && buf' == buf
  {
  }

  /** A `recvMsg` call is a `Begin` and a `Finish`, and neither loses a byte. */
  lemma ReceiveIs(w: World, maxLen: nat, n: nat, c: Cursor)
    requires WellFormed(w.net) && n <= |w.net.rx.buf|
    requires Begin(w.cursor, w.net.rx.buf, w.maxMsg) == Some((c, w.net.rx.buf[n..]))
    ensures Receive(w, maxLen) ==
      if c.In? && |w.net.rx.buf| - n >= c.len then
        var f := Finish(c, w.net.rx.buf[n..], maxLen);
        Took(Took(w, n, c), c.len, f.0).(receipts := w.receipts + [Receipt(f.2, maxLen)])
      else Took(w, n, c)
  {
    hide Begin, Finish;
    FinishParts(c, w.net.rx.buf[n..], maxLen);
    if c.In? && |w.net.rx.buf| - n >= c.len {
      TakeTwice(w.net.rx.taken, w.net.rx.buf, n, c.len);
    }
  }

  lemma ReceiveKeepsGood(w: World, maxLen: nat)
    requires Good(w)
    ensures Good(Receive(w, maxLen))
  {
    BeginKeepsGood(w);
    var n := if w.cursor.Between? && |w.net.rx.buf| >= MSG_HDR then MSG_HDR else 0;
    var c :| Begin(w.cursor, w.net.rx.buf, w.maxMsg) == Some((c, w.net.rx.buf[n..])) && Good(Took(w, n, c));
    ReceiveIs(w, maxLen, n, c);
    if c.In? && |w.net.rx.buf| - n >= c.len {
      FinishKeepsGood(Took(w, n, c), maxLen);
    }
  }

  lemma ActKeepsGood(w: World, a: Action)
    requires Good(w) && !Act(w, a).cut
    ensures Good(Act(w, a))
  {
    match a
    case SendMsg(m) => if Admits(w, m) { AcceptKeepsGood(w, m); }
    case PushChunk => if w.todo != [] { PushKeepsGood(w); }
    case Abort =>
    case Link(e) => if OwnStep(e) { OwnStepKeepsGood(w, e); }
    case Recv(maxLen) => ReceiveKeepsGood(w, maxLen);
  }

  lemma {:induction false} CutStays(w: World, actions: seq<Action>)
    requires WellFormed(w.net) && w.cut
    ensures RunWorld(w, actions).cut
    decreases |actions|
  {
    if actions != [] {
      CutStays(Act(w, actions[0]), actions[1..]);
    }
  }

  lemma {:induction false} RunKeepsGood(w: World, actions: seq<Action>)
    requires Good(w) && !RunWorld(w, actions).cut
    ensures Good(RunWorld(w, actions))
    decreases |actions|
  {
    if actions != [] {
      if Act(w, actions[0]).cut {
        CutStays(Act(w, actions[0]), actions[1..]);
      }
      ActKeepsGood(w, actions[0]);
      RunKeepsGood(Act(w, actions[0]), actions[1..]);
    }
  }

  /**
    End to end: in any run in which no `sendMsg` call was cut off, whatever was lost or repeated on the way,
    the calls of `recvMsg` that returned something returned the accepted messages, each whole, in order and
    once; the only rejections are of messages longer than the caller's buffer.
   */
  lemma MessagesArriveIntact(cap: nat, maxMsg: nat, window: nat, actions: seq<Action>)
    requires window <= WINDOW
    ensures var w := RunWorld(Start(cap, maxMsg, window), actions);
      !w.cut ==>
        && |w.receipts| <= |w.accepted|
        && forall i :: 0 <= i < |w.receipts| ==> Right(w.receipts[i], w.accepted[i])
  {
    StartGood(cap, maxMsg, window);
    if !RunWorld(Start(cap, maxMsg, window), actions).cut {
      RunKeepsGood(Start(cap, maxMsg, window), actions);
    }
  }
}
