/**
  The data path down to bytes: what `GoBackN` puts on its wires is printed as COBS frames, the bytes arrive in
  deliveries of any size, and the far side takes them through the demultiplexer and the framer. Proved: every run
  of bytes is a run of frames, so the messages arrive intact over bytes as well.
 */
module ByteLink {
  import opened Wire
  import opened SeqSpace
  import opened GoBackN
  import opened EndToEnd
  import D = Demux
  import F = Framer
  import P = WirePath

  type Carry = s: seq<byte> | |s| < D.CTRL
  type Kept = s: seq<byte> | |s| <= F.BUF_SIZE

  // ----- one direction -----

  /** The bytes on the wire, and what the demultiplexer and the framer at its end hold back of those delivered. */
  datatype Pipe = Pipe(bytes: seq<byte>, carry: Carry, held: Kept)

  function Put(p: Pipe, f: F.FrameEvent): Pipe {
    if F.Sendable(f) then p.(bytes := p.bytes + F.Print(f)) else p
  }

  function PutAll(p: Pipe, fs: seq<F.FrameEvent>): Pipe
    decreases |fs|
  {
    if fs == [] then p else PutAll(Put(p, fs[0]), fs[1..])
  }

  /** What a delivery of `k` bytes hands to the framer. */
  function Given(p: Pipe, k: nat): seq<byte>
    requires k <= |p.bytes|
  {
    P.FramerBytes(D.Route(p.carry, p.bytes[..k]))
  }

  /** The frames it completes. */
  function Reported(p: Pipe, k: nat): seq<F.FrameEvent>
    requires k <= |p.bytes|
  {
    F.Events(p.held, Given(p, k))
  }

  function Moved(p: Pipe, k: nat): Pipe
    requires k <= |p.bytes|
  {
    D.RouteSound(p.carry, p.bytes[..k]);
    Pipe(p.bytes[k..], D.Carried(p.carry, p.bytes[..k]), F.After(p.held, Given(p, k)))
  }

  /** The `at`-th byte of the wire begins the printed frame `f`. */
  predicate FrameAt(p: Pipe, at: nat, f: F.FrameEvent) {
    && F.Sendable(f) && at + |F.Print(f)| <= |p.bytes| && p.bytes[at..at + |F.Print(f)|] == F.Print(f)
    && F.After(p.held, p.carry + p.bytes[..at]) == []
  }

  function Lost(p: Pipe, at: nat, f: F.FrameEvent): Pipe {
    if FrameAt(p, at, f) then p.(bytes := p.bytes[..at] + p.bytes[at + |F.Print(f)|..]) else p
  }

  /** The frames that the bytes not yet handed over will make. */
  function InFlight(p: Pipe): seq<F.FrameEvent> { F.Events(p.held, p.carry + p.bytes) }

  /** The last of them is complete. */
  predicate Ended(p: Pipe) { F.After(p.held, p.carry + p.bytes) == [] }

  lemma PutSeen(p: Pipe, f: F.FrameEvent)
    requires Ended(p) && F.Sendable(f)
    ensures Ended(Put(p, f)) && InFlight(Put(p, f)) == InFlight(p) + [f]
  {
    hide F.After, F.Events, F.Print, F.Sendable;
    var all := p.carry + p.bytes;
    F.FrameReported(p.held, all, f);
    F.ExtendBy(p.held, all, 0);
    F.ZeroAlone();
    Assoc(p.carry, p.bytes, F.Print(f));
  }

  lemma {:induction false} PutAllSeen(p: Pipe, fs: seq<F.FrameEvent>)
    requires Ended(p) && F.AllSendable(fs)
    ensures Ended(PutAll(p, fs)) && InFlight(PutAll(p, fs)) == InFlight(p) + fs
    decreases |fs|
  {
    hide Ended, InFlight, Put, F.Sendable;
    if fs != [] {
      PutSeen(p, fs[0]);
      PutAllSeen(Put(p, fs[0]), fs[1..]);
      assert InFlight(p) + [fs[0]] + fs[1..] == InFlight(p) + fs;
    }
  }

  /** A clean delivery moves frames from the wire to the node and neither makes, loses nor reorders any. */
  lemma DeliverySplits(p: Pipe, k: nat)
    requires k <= |p.bytes| && P.CtrlFree(p.carry + p.bytes[..k]) && Ended(p)
    ensures InFlight(p) == Reported(p, k) + InFlight(Moved(p, k)) && Ended(Moved(p, k))
  {
    hide F.After, F.Events, D.Route, D.Carried, P.FramerBytes, P.CtrlFree;
    var now, later := p.bytes[..k], p.bytes[k..];
    P.RouteFree(p.carry, now);
    D.RouteSound(p.carry, now);
    D.RouteConserves(p.carry, now);
    P.FramerBytesExact(D.Route(p.carry, now));
    var x, c := Given(p, k), D.Carried(p.carry, now);
    assert now + later == p.bytes;
    Assoc(p.carry, now, later);
    Assoc(x, c, later);
    F.FeedSplit(p.held, x, c + later);
  }

  /** Losing a frame's bytes loses that frame and no other. */
  lemma LossIsOne(p: Pipe, at: nat, f: F.FrameEvent) returns (i: nat)
    requires Ended(p) && FrameAt(p, at, f)
    ensures i < |InFlight(p)| && InFlight(Lost(p, at, f)) == Without(InFlight(p), i) && Ended(Lost(p, at, f))
  {
    hide F.After, F.Events, F.Print, F.Sendable;
    var front, post := p.carry + p.bytes[..at], p.bytes[at + |F.Print(f)|..];
    assert p.carry + p.bytes == front + (F.Print(f) + post);
    assert p.carry + Lost(p, at, f).bytes == front + post;
    F.FeedSplit(p.held, front, F.Print(f) + post);
    F.FeedSplit(p.held, front, post);
    F.FeedSplit([], F.Print(f), post);
    F.AloneReported(f);
    i := |F.Events(p.held, front)|;
    var before, after := F.Events(p.held, front), F.Events([], post);
    assert before + ([f] + after) == InFlight(p);
    assert Without(before + ([f] + after), i) == before + after;
  }

  // ----- both ends -----

  function DataEvent(d: DataFrame): F.FrameEvent { F.Payload(d.cobsSeq, d.payload) }

  function BackEvent(b: Feedback): F.FrameEvent {
    match b
    case Ack(q, n) => F.AckSeen(q, n)
    case Nak(q) => F.NakSeen(q)
  }

  function DataEvents(ds: seq<DataFrame>): (r: seq<F.FrameEvent>)
    ensures |r| == |ds|
  {
    seq(|ds|, i requires 0 <= i < |ds| => DataEvent(ds[i]))
  }

  function BackEvents(bs: seq<Feedback>): (r: seq<F.FrameEvent>)
    ensures |r| == |bs|
  {
    seq(|bs|, i requires 0 <= i < |bs| => BackEvent(bs[i]))
  }

  /** Both ends, in `core` with nothing on its wires, and the pipes between them. */
  datatype ByteWorld = ByteWorld(core: World, data: Pipe, back: Pipe)

  datatype ByteAction =
    | App(a: Action)                         // a call of either application, or an RTO round
    | DataBytes(k: nat)                      // a delivery at the receiver
    | BackBytes(k: nat, counts: seq<nat>)    // a delivery at the sender; how much each NAK in it replays
    | LoseDataFrame(at: nat, frame: F.FrameEvent)
    | LoseBackFrame(at: nat, frame: F.FrameEvent)

  function Strip(w: World): (r: World)
    ensures WellFormed(w.net) ==> WellFormed(r.net)
  {
    w.(net := w.net.(data := [], dataNo := [], back := [], backNo := []))
  }

  /** Everything but what travels on the wires. */
  predicate OwnAction(a: Action) {
    a.Link? ==> a.event.Resend?
  }

  /** Prints what a step of the core has put on its wires. */
  function Emit(b: ByteWorld, w: World): (r: ByteWorld)
    requires WellFormed(w.net)
    ensures WellFormed(r.core.net)
  {
    ByteWorld(Strip(w), PutAll(b.data, DataEvents(w.net.data)), PutAll(b.back, BackEvents(w.net.back)))
  }

  function WithData(w: World, d: DataFrame): (r: World)
    requires WellFormed(w.net)
    ensures WellFormed(r.net)
  {
    w.(net := w.net.(data := [d], dataNo := [0]))
  }

  function WithBack(w: World, f: Feedback): (r: World)
    requires WellFormed(w.net)
    ensures WellFormed(r.net)
  {
    w.(net := w.net.(back := [f], backNo := [0]))
  }

  /** The receiver is told of a frame. */
  function TakeData(b: ByteWorld, e: F.FrameEvent): (r: ByteWorld)
    requires WellFormed(b.core.net)
    ensures WellFormed(r.core.net)
  {
    match e
    case Payload(q, p) => Emit(b, Act(WithData(b.core, DataFrame(q, p)), Link(DeliverData)))
    case _ => b
  }

  function TakeAllData(b: ByteWorld, es: seq<F.FrameEvent>): (r: ByteWorld)
    requires WellFormed(b.core.net)
    ensures WellFormed(r.core.net)
    decreases |es|
  {
    if es == [] then b else TakeAllData(TakeData(b, es[0]), es[1..])
  }

  /** The sender is told of a frame. */
  function TakeBack(b: ByteWorld, e: F.FrameEvent, count: nat): (r: ByteWorld)
    requires WellFormed(b.core.net)
    ensures WellFormed(r.core.net)
  {
    match e
    case AckSeen(q, n) => Emit(b, Act(WithBack(b.core, Ack(q, n)), Link(DeliverBack(count))))
    case NakSeen(q) => Emit(b, Act(WithBack(b.core, Nak(q)), Link(DeliverBack(count))))
    case _ => b
  }

  function TakeAllBack(b: ByteWorld, es: seq<F.FrameEvent>, counts: seq<nat>): (r: ByteWorld)
    requires WellFormed(b.core.net)
    ensures WellFormed(r.core.net)
    decreases |es|
  {
    if es == [] then b
    else if counts == [] then TakeAllBack(TakeBack(b, es[0], 0), es[1..], [])
    else TakeAllBack(TakeBack(b, es[0], counts[0]), es[1..], counts[1..])
  }

  function ByteStep(b: ByteWorld, a: ByteAction): (r: ByteWorld)
    requires WellFormed(b.core.net)
    ensures WellFormed(r.core.net)
  {
    match a
    case App(a) => if OwnAction(a) then Emit(b, Act(b.core, a)) else b
    case DataBytes(k) =>
      if k <= |b.data.bytes| then TakeAllData(b.(data := Moved(b.data, k)), Reported(b.data, k)) else b
    case BackBytes(k, counts) =>
      if k <= |b.back.bytes| then TakeAllBack(b.(back := Moved(b.back, k)), Reported(b.back, k), counts) else b
    case LoseDataFrame(at, f) => b.(data := Lost(b.data, at, f))
    case LoseBackFrame(at, f) => b.(back := Lost(b.back, at, f))
  }

  function RunBytes(b: ByteWorld, actions: seq<ByteAction>): (r: ByteWorld)
    requires WellFormed(b.core.net)
    ensures WellFormed(r.core.net)
    decreases |actions|
  {
    if actions == [] then b else RunBytes(ByteStep(b, actions[0]), actions[1..])
  }

  function ByteStart(cap: nat, maxMsg: nat, window: nat): ByteWorld {
    ByteWorld(Start(cap, maxMsg, window), Pipe([], [], []), Pipe([], [], []))
  }

  /** No five bytes of this delivery pass for a control frame, and no `sendMsg` call is cut off in the middle. */
  ghost predicate Clean(b: ByteWorld, a: ByteAction) {
    match a
    case DataBytes(k) => k <= |b.data.bytes| ==> P.CtrlFree(b.data.carry + b.data.bytes[..k])
    case BackBytes(k, _) => k <= |b.back.bytes| ==> P.CtrlFree(b.back.carry + b.back.bytes[..k])
    case App(Abort) => b.core.todo == []
    case _ => true
  }

  ghost predicate CleanRun(b: ByteWorld, actions: seq<ByteAction>)
    requires WellFormed(b.core.net)
    decreases |actions|
  {
    actions == [] || (Clean(b, actions[0]) && CleanRun(ByteStep(b, actions[0]), actions[1..]))
  }

  // ----- a step does not look at what is on the wires already -----

  lemma OwnAlone(w: World, a: Action)
    requires WellFormed(w.net) && OwnAction(a)
    ensures var r, q := Act(w, a), Act(Strip(w), a);
      && Strip(r) == Strip(q) && r.net.data == w.net.data + q.net.data && r.net.back == w.net.back + q.net.back
  {
    hide Messages.Recv;
  }

  lemma DataAlone(w: World)
    requires WellFormed(w.net) && w.net.data != []
    ensures var r, q := Act(w, Link(DeliverData)), Act(WithData(Strip(w), w.net.data[0]), Link(DeliverData));
      && Strip(r) == Strip(q) && r.net.data == w.net.data[1..] && q.net.data == []
      && r.net.back == w.net.back + q.net.back
  {
    hide RxPayload;
  }

  lemma BackAlone(w: World, count: nat)
    requires WellFormed(w.net) && w.net.back != []
    ensures var a := Link(DeliverBack(count));
      var r, q := Act(w, a), Act(WithBack(Strip(w), w.net.back[0]), a);
      && Strip(r) == Strip(q) && r.net.back == w.net.back[1..] && q.net.back == []
      && r.net.data == w.net.data + q.net.data
  {
  }

  // ----- every run of bytes is a run of frames -----

  /**
    `w` is the same system with frames on its wires: those `ds` and `bs` already reported to the nodes but not yet
    handled, and behind them those the bytes in flight will make.
   */
  ghost predicate Rel(b: ByteWorld, w: World, ds: seq<F.FrameEvent>, bs: seq<F.FrameEvent>) {
    && Good(w) && b.core == Strip(w) && Ended(b.data) && Ended(b.back)
    && DataEvents(w.net.data) == ds + InFlight(b.data)
    && BackEvents(w.net.back) == bs + InFlight(b.back)
  }

  lemma StartRel(cap: nat, maxMsg: nat, window: nat)
    requires window <= WINDOW
    ensures Rel(ByteStart(cap, maxMsg, window), Start(cap, maxMsg, window), [], [])
  {
    StartGood(cap, maxMsg, window);
    F.NothingYet([]);
    var none: seq<byte> := [];
    assert none + none == none;
  }

  lemma EventsAppend(xs: seq<DataFrame>, ys: seq<DataFrame>)
    ensures DataEvents(xs + ys) == DataEvents(xs) + DataEvents(ys)
  {
  }

  lemma BackEventsAppend(xs: seq<Feedback>, ys: seq<Feedback>)
    ensures BackEvents(xs + ys) == BackEvents(xs) + BackEvents(ys)
  {
  }

  /** What a good world has in flight can be printed. */
  lemma FramesPrintable(w: World)
    requires Good(w)
    ensures F.AllSendable(DataEvents(w.net.data)) && F.AllSendable(BackEvents(w.net.back))
  {
    forall i | 0 <= i < |w.net.data|
      ensures F.Sendable(DataEvents(w.net.data)[i])
    {
      assert w.net.data[i] == w.net.tx.Frame(w.net.dataNo[i]);
      assert |w.net.tx.chunks[w.net.dataNo[i]]| <= MAX_CHUNK;
    }
  }

  lemma SendableTail(xs: seq<F.FrameEvent>, ys: seq<F.FrameEvent>)
    requires F.AllSendable(xs + ys)
    ensures F.AllSendable(ys)
  {
    forall i | 0 <= i < |ys|
      ensures F.Sendable(ys[i])
    {
      assert (xs + ys)[|xs| + i] == ys[i];
    }
  }

  /** What a step adds to the wires of the frame world, `Emit` prints behind the bytes in flight. */
  lemma EmitRel(b: ByteWorld, q: World, w: World, ds: seq<F.FrameEvent>, bs: seq<F.FrameEvent>)
    requires Good(w) && WellFormed(q.net) && Strip(w) == Strip(q) && Ended(b.data) && Ended(b.back)
    requires DataEvents(w.net.data) == ds + InFlight(b.data) + DataEvents(q.net.data)
    requires BackEvents(w.net.back) == bs + InFlight(b.back) + BackEvents(q.net.back)
    ensures Rel(Emit(b, q), w, ds, bs)
  {
    hide Good, Ended, InFlight, Strip, DataEvents, BackEvents, F.Sendable, PutAll;
    FramesPrintable(w);
    SendableTail(ds + InFlight(b.data), DataEvents(q.net.data));
    SendableTail(bs + InFlight(b.back), BackEvents(q.net.back));
    PutAllSeen(b.data, DataEvents(q.net.data));
    PutAllSeen(b.back, BackEvents(q.net.back));
    Assoc(ds, InFlight(b.data), DataEvents(q.net.data));
    Assoc(bs, InFlight(b.back), BackEvents(q.net.back));
  }

  /** A call of either application, or an RTO round. */
  lemma AppRel(b: ByteWorld, w: World, a: Action)
    requires Rel(b, w, [], []) && OwnAction(a) && (a.Abort? ==> b.core.todo == [])
    ensures Rel(Emit(b, Act(b.core, a)), Act(w, a), [], [])
  {
    hide Good, Inv, Ended, InFlight, DataEvents, BackEvents, PutAll, Receive, Admits, Step, SendChunk;
    GoodIs(w);
    var r, q := Act(w, a), Act(b.core, a);
    OwnAlone(w, a);
    UncutStays(w, a);
    ActKeepsGood(w, a);
    EventsAppend(w.net.data, q.net.data);
    BackEventsAppend(w.net.back, q.net.back);
    assert [] + InFlight(b.data) == InFlight(b.data) && [] + InFlight(b.back) == InFlight(b.back);
    EmitRel(b, q, r, [], []);
  }

  lemma UncutStays(w: World, a: Action)
    requires WellFormed(w.net) && !w.cut && (a.Abort? ==> w.todo == [])
    ensures !Act(w, a).cut
  {
  }

  /** The receiver handles the oldest frame reported to it. */
  lemma TakeDataRel(b: ByteWorld, w: World, e: F.FrameEvent, ds: seq<F.FrameEvent>, bs: seq<F.FrameEvent>)
    requires Rel(b, w, [e] + ds, bs)
    ensures WellFormed(w.net) && Rel(TakeData(b, e), Act(w, Link(DeliverData)), ds, bs)
  {
    hide Good, Inv, Ended, InFlight, PutAll, Step, SendChunk;
    GoodIs(w);
    assert DataEvents(w.net.data)[0] == e;
    assert DataEvents(w.net.data[1..]) == ds + InFlight(b.data) by {
      assert DataEvents(w.net.data)[1..] == DataEvents(w.net.data[1..]);
      assert ([e] + ds + InFlight(b.data))[1..] == ds + InFlight(b.data);
    }
    var d := w.net.data[0];
    var r, q := Act(w, Link(DeliverData)), Act(WithData(b.core, d), Link(DeliverData));
    DataAlone(w);
    UncutStays(w, Link(DeliverData));
    ActKeepsGood(w, Link(DeliverData));
    BackEventsAppend(w.net.back, q.net.back);
    assert ds + InFlight(b.data) + DataEvents(q.net.data) == ds + InFlight(b.data);
    EmitRel(b, q, r, ds, bs);
  }

  /** The sender handles the oldest frame reported to it. */
  lemma TakeBackRel(b: ByteWorld, w: World, e: F.FrameEvent, count: nat, ds: seq<F.FrameEvent>, bs: seq<F.FrameEvent>)
    requires Rel(b, w, ds, [e] + bs)
    ensures WellFormed(w.net) && Rel(TakeBack(b, e, count), Act(w, Link(DeliverBack(count))), ds, bs)
  {
    hide Good, Inv, Ended, InFlight, PutAll, Step, SendChunk;
    GoodIs(w);
    assert BackEvents(w.net.back)[0] == e;
    assert BackEvents(w.net.back[1..]) == bs + InFlight(b.back) by {
      assert BackEvents(w.net.back)[1..] == BackEvents(w.net.back[1..]);
      assert ([e] + bs + InFlight(b.back))[1..] == bs + InFlight(b.back);
    }
    var f := w.net.back[0];
    var a := Link(DeliverBack(count));
    var r, q := Act(w, a), Act(WithBack(b.core, f), a);
    BackAlone(w, count);
    UncutStays(w, a);
    ActKeepsGood(w, a);
    EventsAppend(w.net.data, q.net.data);
    assert bs + InFlight(b.back) + BackEvents(q.net.back) == bs + InFlight(b.back);
    EmitRel(b, q, r, ds, bs);
  }

  lemma RunCons(w: World, a: Action, rest: seq<Action>)
    requires WellFormed(w.net)
    ensures RunWorld(w, [a] + rest) == RunWorld(Act(w, a), rest)
  {
    assert ([a] + rest)[1..] == rest;
  }

  /** `actions` take the frame world from `w` to one that matches `b` with nothing left to handle. */
  ghost predicate Matches(b: ByteWorld, w: World, actions: seq<Action>) {
    WellFormed(w.net) && Rel(b, RunWorld(w, actions), [], [])
  }

  lemma MatchesAfter(b: ByteWorld, w: World, a: Action, rest: seq<Action>)
    requires WellFormed(w.net) && Matches(b, Act(w, a), rest)
    ensures Matches(b, w, [a] + rest)
  {
    hide Rel, Act;
    RunCons(w, a, rest);
  }

  lemma {:induction false} TakeAllDataRel(b: ByteWorld, w: World, es: seq<F.FrameEvent>) returns (actions: seq<Action>)
    requires WellFormed(b.core.net) && Rel(b, w, es, [])
    ensures Matches(TakeAllData(b, es), w, actions)
    decreases |es|
  {
    hide Rel, TakeData, Act;
    RelIs(b, w, es, []);
    if es == [] {
      actions := [];
    } else {
      assert [es[0]] + es[1..] == es;
      TakeDataRel(b, w, es[0], es[1..], []);
      var rest := TakeAllDataRel(TakeData(b, es[0]), Act(w, Link(DeliverData)), es[1..]);
      MatchesAfter(TakeAllData(b, es), w, Link(DeliverData), rest);
      actions := [Link(DeliverData)] + rest;
    }
  }

  lemma {:induction false} TakeAllBackRel(b: ByteWorld, w: World, es: seq<F.FrameEvent>, counts: seq<nat>)
    returns (actions: seq<Action>)
    requires WellFormed(b.core.net) && Rel(b, w, [], es)
    ensures Matches(TakeAllBack(b, es, counts), w, actions)
    decreases |es|
  {
    hide Rel, TakeBack, Act;
    RelIs(b, w, [], es);
    if es == [] {
      actions := [];
    } else {
      assert [es[0]] + es[1..] == es;
      var count, more := if counts == [] then 0 else counts[0], if counts == [] then [] else counts[1..];
      TakeBackRel(b, w, es[0], count, [], es[1..]);
      var rest := TakeAllBackRel(TakeBack(b, es[0], count), Act(w, Link(DeliverBack(count))), es[1..], more);
      MatchesAfter(TakeAllBack(b, es, counts), w, Link(DeliverBack(count)), rest);
      actions := [Link(DeliverBack(count))] + rest;
    }
  }

  lemma RelIs(b: ByteWorld, w: World, ds: seq<F.FrameEvent>, bs: seq<F.FrameEvent>)
    requires Rel(b, w, ds, bs)
    ensures WellFormed(w.net) && WellFormed(b.core.net)
  {
  }

  /** A clean delivery at either end. */
  lemma DataBytesRel(b: ByteWorld, w: World, k: nat)
    requires Rel(b, w, [], []) && k <= |b.data.bytes| && P.CtrlFree(b.data.carry + b.data.bytes[..k])
    ensures Rel(b.(data := Moved(b.data, k)), w, Reported(b.data, k), [])
  {
    hide Good, Ended, InFlight, Moved, Reported, DataEvents, BackEvents, P.CtrlFree;
    DeliverySplits(b.data, k);
    assert [] + InFlight(b.data) == InFlight(b.data);
  }

  lemma BackBytesRel(b: ByteWorld, w: World, k: nat)
    requires Rel(b, w, [], []) && k <= |b.back.bytes| && P.CtrlFree(b.back.carry + b.back.bytes[..k])
    ensures Rel(b.(back := Moved(b.back, k)), w, [], Reported(b.back, k))
  {
    hide Good, Ended, InFlight, Moved, Reported, DataEvents, BackEvents, P.CtrlFree;
    DeliverySplits(b.back, k);
    assert [] + InFlight(b.back) == InFlight(b.back);
  }

  /** The bytes of one frame are lost. */
  lemma LoseDataRel(b: ByteWorld, w: World, at: nat, f: F.FrameEvent) returns (i: nat)
    requires Rel(b, w, [], []) && FrameAt(b.data, at, f)
    ensures WellFormed(w.net) && Rel(b.(data := Lost(b.data, at, f)), Act(w, Link(LoseData(i))), [], [])
  {
    hide Good, Inv, Ended, InFlight, FrameAt, Lost;
    GoodIs(w);
    i := LossIsOne(b.data, at, f);
    assert [] + InFlight(b.data) == InFlight(b.data);
    assert DataEvents(Without(w.net.data, i)) == Without(DataEvents(w.net.data), i);
    assert [] + InFlight(Lost(b.data, at, f)) == InFlight(Lost(b.data, at, f));
    UncutStays(w, Link(LoseData(i)));
    ActKeepsGood(w, Link(LoseData(i)));
  }

  lemma LoseBackRel(b: ByteWorld, w: World, at: nat, f: F.FrameEvent) returns (i: nat)
    requires Rel(b, w, [], []) && FrameAt(b.back, at, f)
    ensures WellFormed(w.net) && Rel(b.(back := Lost(b.back, at, f)), Act(w, Link(LoseBack(i))), [], [])
  {
    hide Good, Inv, Ended, InFlight, FrameAt, Lost;
    GoodIs(w);
    i := LossIsOne(b.back, at, f);
    assert [] + InFlight(b.back) == InFlight(b.back);
    assert BackEvents(Without(w.net.back, i)) == Without(BackEvents(w.net.back), i);
    assert [] + InFlight(Lost(b.back, at, f)) == InFlight(Lost(b.back, at, f));
    UncutStays(w, Link(LoseBack(i)));
    ActKeepsGood(w, Link(LoseBack(i)));
  }

  /** One action at the byte level is a few, or none, at the frame level. */
  lemma StepRefines(b: ByteWorld, w: World, a: ByteAction) returns (actions: seq<Action>)
    requires WellFormed(b.core.net) && Rel(b, w, [], []) && Clean(b, a)
    ensures Matches(ByteStep(b, a), w, actions)
  {
    hide Rel, Act, TakeAllData, TakeAllBack, Moved, Reported, FrameAt, P.CtrlFree;
    RelIs(b, w, [], []);
    actions := [];
    match a {
      case App(a) =>
        if OwnAction(a) {
          AppRel(b, w, a);
          MatchesAfter(Emit(b, Act(b.core, a)), w, a, []);
          actions := [a] + [];
        }
      case DataBytes(k) =>
        if k <= |b.data.bytes| {
          DataBytesRel(b, w, k);
          actions := TakeAllDataRel(b.(data := Moved(b.data, k)), w, Reported(b.data, k));
        }
      case BackBytes(k, counts) =>
        if k <= |b.back.bytes| {
          BackBytesRel(b, w, k);
          actions := TakeAllBackRel(b.(back := Moved(b.back, k)), w, Reported(b.back, k), counts);
        }
      case LoseDataFrame(at, f) =>
        if FrameAt(b.data, at, f) {
          var i := LoseDataRel(b, w, at, f);
          MatchesAfter(b.(data := Lost(b.data, at, f)), w, Link(LoseData(i)), []);
          actions := [Link(LoseData(i))] + [];
        }
      case LoseBackFrame(at, f) =>
        if FrameAt(b.back, at, f) {
          var i := LoseBackRel(b, w, at, f);
          MatchesAfter(b.(back := Lost(b.back, at, f)), w, Link(LoseBack(i)), []);
          actions := [Link(LoseBack(i))] + [];
        }
    }
  }

  /**
    Every clean run of bytes is a run of frames: whatever the deliveries, and whichever frames lost their bytes, some
    actions of the frame world do to both nodes exactly what the bytes did.
   */
  lemma {:induction false} BytesRefineFrames(b: ByteWorld, w: World, actions: seq<ByteAction>)
    returns (frames: seq<Action>)
    requires WellFormed(b.core.net) && Rel(b, w, [], []) && CleanRun(b, actions)
    ensures Matches(RunBytes(b, actions), w, frames)
    decreases |actions|
  {
    hide Rel, Act, ByteStep, Clean;
    RelIs(b, w, [], []);
    if actions == [] {
      frames := [];
    } else {
      var first := StepRefines(b, w, actions[0]);
      var rest := BytesRefineFrames(ByteStep(b, actions[0]), RunWorld(w, first), actions[1..]);
      RunAppend(w, first, rest);
      frames := first + rest;
    }
  }

  /**
    End to end over bytes: printed, split into deliveries at any byte, scanned for control frames, framed, lost frame
    by frame and resent, the messages received are the accepted ones, each whole, in order and once, in every run in
    which no five bytes of a delivery pass for a control frame and no `sendMsg` call is cut off.
   */
  lemma BytesArriveIntact(cap: nat, maxMsg: nat, window: nat, actions: seq<ByteAction>)
    requires window <= WINDOW && CleanRun(ByteStart(cap, maxMsg, window), actions)
    ensures var w := RunBytes(ByteStart(cap, maxMsg, window), actions).core;
      && |w.receipts| <= |w.accepted|
      && forall i :: 0 <= i < |w.receipts| ==> Right(w.receipts[i], w.accepted[i])
  {
    var b := ByteStart(cap, maxMsg, window);
    StartRel(cap, maxMsg, window);
    var frames := BytesRefineFrames(b, Start(cap, maxMsg, window), actions);
    MessagesArriveIntact(cap, maxMsg, window, frames);
  }

  // ----- why a delivery must be clean -----

  /**
    Without that condition it fails: where the next chunk is one that holds the pattern, the receiver takes other bytes
    for it, pushes them and acknowledges its sequence, though no byte was lost or changed on the way.
   */
  lemma UncleanDeliveryMisleads(b: ByteWorld)
    requires WellFormed(b.core.net) && b.core == Strip(b.core) && b.data == Pipe(F.Print(F.Payload(1, P.SENT_CHUNK)), [], [])
    requires b.core.net.rx.Next() == 1 && |b.core.net.rx.buf| + |P.TAKEN_CHUNK| <= b.core.net.rx.cap
    requires |b.core.net.tx.chunks| > 1 && b.core.net.tx.chunks[1] == P.SENT_CHUNK
    ensures !Clean(b, DataBytes(|b.data.bytes|))
    ensures var r := ByteStep(b, DataBytes(|b.data.bytes|));
      && r.core.net.rx.pushed == b.core.net.rx.pushed + [P.TAKEN_CHUNK] && r.core.net.tx == b.core.net.tx
      && !(r.core.net.rx.pushed <= r.core.net.tx.chunks)
      && r.back == Put(b.back, F.AckSeen(1, |P.TAKEN_CHUNK|))
  {
    hide F.Print, F.Events, F.After, D.Scan, D.Tail, P.FramerBytes, P.CtrlFree;
    var s, k := b.data.bytes, |b.data.bytes|;
    P.PatternFrameArrivesAltered();
    assert [] + s[..k] == s && s[..k] == s && s[k..] == [];
    var e := F.Payload(1, P.TAKEN_CHUNK);
    assert Reported(b.data, k) == [e];
    var moved := b.(data := Moved(b.data, k));
    assert TakeAllData(moved, [e]) == TakeAllData(TakeData(moved, e), [e][1..]) == TakeData(moved, e);
    ChunkTaken(moved);
  }

  lemma ChunkTaken(b: ByteWorld)
    requires WellFormed(b.core.net) && b.core == Strip(b.core)
    requires b.core.net.rx.Next() == 1 && |b.core.net.rx.buf| + |P.TAKEN_CHUNK| <= b.core.net.rx.cap
    ensures var r := TakeData(b, F.Payload(1, P.TAKEN_CHUNK));
      && r.core.net.rx.pushed == b.core.net.rx.pushed + [P.TAKEN_CHUNK] && r.core.net.tx == b.core.net.tx
      && r.back == Put(b.back, F.AckSeen(1, |P.TAKEN_CHUNK|))
  {
    hide F.Print;
    var q := Act(WithData(b.core, DataFrame(1, P.TAKEN_CHUNK)), Link(DeliverData));
    ClassifyExact(1, 1);
    assert SeqOf(1) == 1;
    assert q.net.data == [] && q.net.back == [Ack(1, 5)];
    var f := F.AckSeen(1, 5);
    assert BackEvents(q.net.back) == [f] && DataEvents(q.net.data) == [];
    assert PutAll(b.back, [f]) == PutAll(Put(b.back, f), [f][1..]) == Put(b.back, f);
  }
}
