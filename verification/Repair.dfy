/**
  What each frame in flight does to the node it reaches, said in the unbounded numbers behind the wire's sequences, and
  what whole runs of them do: a window acknowledged by its last ACK alone, a loss repaired by the receiver's NAK alone.
 */
module Repair {
  import opened Wire
  import opened SeqSpace
  import opened GoBackN

  // ----- one frame -----

  /** An ACK sent for chunk `n` frees everything through `n`, whatever became of the ACKs before it. */
  lemma AckIsCumulative(s: Net, count: nat)
    requires Inv(s) && s.back != [] && s.back[0].Ack?
    ensures var n, r := s.backNo[0], Step(s, DeliverBack(count));
      && r.tx.chunks == s.tx.chunks && r.tx.base == (if s.tx.base <= n then n + 1 else s.tx.base)
      && r.rx == s.rx && r.data == s.data && r.dataNo == s.dataNo
      && r.back == s.back[1..] && r.backNo == s.backNo[1..]
  {
    SenderSeesTrueChunk(s, 0);
  }

  /** A NAK for chunk `n` frees everything before `n` and puts a prefix of the rest on the wire again. */
  lemma NakIsCumulative(s: Net, count: nat)
    requires Inv(s) && s.back != [] && s.back[0].Nak?
    ensures var n, r := s.backNo[0], Step(s, DeliverBack(count));
      && n < |s.tx.chunks| && r.tx.chunks == s.tx.chunks && r.tx.base == n && r.rx == s.rx
      && r.back == s.back[1..] && r.backNo == s.backNo[1..]
      && |r.data| == |r.dataNo| == |s.data| + (if count <= |s.tx.chunks| - n then count else |s.tx.chunks| - n)
      && s.data <= r.data && s.dataNo <= r.dataNo
      && forall j :: |s.data| <= j < |r.data| ==>
           r.dataNo[j] == n + (j - |s.data|) && r.data[j] == DataFrame(SeqOf(r.dataNo[j]), s.tx.chunks[r.dataNo[j]])
  {
    hide CursorsOk, DataOk, SeqOf, Replay;
    SenderSeesTrueChunk(s, 0);
    NamedInWindow(s);
    var m := s.(back := s.back[1..], backNo := s.backNo[1..], tx := s.tx.(base := s.backNo[0]));
    ReplayIs(m, count);
  }

  /** A replay puts the first `count` chunks of the window on the wire, or all of them, in order and as first sent. */
  lemma ReplayIs(s: Net, count: nat)
    requires WellFormed(s)
    ensures var r := Replay(s, count);
      && |r.data| == |r.dataNo| == |s.data| + (if count <= s.tx.Pending() then count else s.tx.Pending())
      && s.data <= r.data && s.dataNo <= r.dataNo && r == s.(data := r.data, dataNo := r.dataNo)
      && forall j :: |s.data| <= j < |r.data| ==>
           && r.dataNo[j] == s.tx.base + (j - |s.data|)
           && r.data[j] == DataFrame(SeqOf(r.dataNo[j]), s.tx.chunks[r.dataNo[j]])
  {
    hide SeqOf;
    var r := Replay(s, count);
    var k := if count <= s.tx.Pending() then count else s.tx.Pending();
    forall j | |s.data| <= j < |s.data| + k
      ensures r.dataNo[j] == s.tx.base + (j - |s.data|) && r.data[j] == s.tx.Frame(r.dataNo[j])
    {
      assert r.dataNo[j] == seq(k, i => s.tx.base + i)[j - |s.data|];
      assert r.data[j] == s.tx.Burst(k)[j - |s.data|];
    }
  }

  lemma NamedInWindow(s: Net)
    requires Inv(s) && s.back != []
    ensures s.backNo[0] < |s.tx.chunks|
  {
  }

  /** `e` is the answer that `r` has put on the way back for chunk `n`. */
  ghost predicate Answered(s: Net, r: Net, e: Feedback, n: nat) {
    r.back == s.back + [e] && r.backNo == s.backNo + [n]
  }

  /** The app buffer takes all of the chunk or none. */
  predicate HasRoom(rx: Rx, payload: seq<byte>) { |rx.buf| + |payload| <= rx.cap }

  /**
    A chunk the receiver has is acknowledged again; the next one is taken and acknowledged when there is room; every
    other one, and the next without room, is answered with a NAK for the next, and moves nothing.
   */
  lemma DeliveryAnswers(s: Net)
    requires Inv(s) && s.data != []
    ensures var n, next, r := s.dataNo[0], s.rx.Next(), Step(s, DeliverData);
      && n < |s.tx.chunks| && r.tx == s.tx && r.data == s.data[1..] && r.dataNo == s.dataNo[1..]
      && var chunk := s.tx.chunks[n];
         && (n < next ==> r.rx == s.rx && Answered(s, r, Ack(SeqOf(n), |chunk|), n))
         && (n == next && HasRoom(s.rx, chunk) ==>
              r.rx == s.rx.(pushed := s.rx.pushed + [chunk], buf := s.rx.buf + chunk)
              && Answered(s, r, Ack(SeqOf(n), |chunk|), n))
         && (n > next || (n == next && !HasRoom(s.rx, chunk)) ==>
              next < |s.tx.chunks| && r.rx == s.rx && Answered(s, r, Nak(SeqOf(next)), next))
  {
    ReceiverSeesTrueOrder(s, 0);
    assert s.data[0] == s.tx.Frame(s.dataNo[0]);
  }

  // ----- a window acknowledged by its last ACK -----

  function Again(e: Event, k: nat): seq<Event> {
    if k == 0 then [] else [e] + Again(e, k - 1)
  }

  lemma RunOne(s: Net, e: Event, rest: seq<Event>)
    requires WellFormed(s)
    ensures Run(s, [e] + rest) == Run(Step(s, e), rest)
  {
    assert ([e] + rest)[1..] == rest;
  }

  lemma {:induction false} RunTwo(s: Net, xs: seq<Event>, ys: seq<Event>)
    requires WellFormed(s)
    ensures Run(s, xs + ys) == Run(Run(s, xs), ys)
    decreases |xs|
  {
    hide Step;
    if xs == [] {
      assert xs + ys == ys;
    } else {
      assert (xs + ys)[1..] == xs[1..] + ys;
      RunTwo(Step(s, xs[0]), xs[1..], ys);
    }
  }

  /** Loses everything on the way back but the last `keep` frames. */
  lemma {:induction false} LoseBackFront(s: Net, k: nat)
    requires Inv(s) && k <= |s.back|
    ensures var r := Run(s, Again(LoseBack(0), k));
      Inv(r) && r == s.(back := s.back[k..], backNo := s.backNo[k..])
    decreases k
  {
    hide Inv;
    if k > 0 {
      InvLengths(s);
      LoseBackKeepsInv(s, 0);
      var n := Step(s, LoseBack(0));
      assert n == s.(back := s.back[1..], backNo := s.backNo[1..]);
      RunOne(s, LoseBack(0), Again(LoseBack(0), k - 1));
      LoseBackFront(n, k - 1);
      assert s.back[1..][k - 1..] == s.back[k..] && s.backNo[1..][k - 1..] == s.backNo[k..];
    } else {
      InvLengths(s);
      assert s.back[0..] == s.back && s.backNo[0..] == s.backNo;
    }
  }

  lemma {:induction false} LoseDataFront(s: Net, k: nat)
    requires Inv(s) && k <= |s.data|
    ensures var r := Run(s, Again(LoseData(0), k));
      Inv(r) && r == s.(data := s.data[k..], dataNo := s.dataNo[k..])
    decreases k
  {
    hide Inv;
    if k > 0 {
      InvLengths(s);
      LoseDataKeepsInv(s, 0);
      var n := Step(s, LoseData(0));
      assert n == s.(data := s.data[1..], dataNo := s.dataNo[1..]);
      RunOne(s, LoseData(0), Again(LoseData(0), k - 1));
      LoseDataFront(n, k - 1);
      assert s.data[1..][k - 1..] == s.data[k..] && s.dataNo[1..][k - 1..] == s.dataNo[k..];
    } else {
      InvLengths(s);
      assert s.data[0..] == s.data && s.dataNo[0..] == s.dataNo;
    }
  }

  lemma InvLengths(s: Net)
    requires Inv(s)
    ensures WellFormed(s) && |s.data| == |s.dataNo| && |s.back| == |s.backNo|
    ensures s.tx.base <= s.rx.Next() <= |s.tx.chunks|
  {
  }

  /** The frames on the data wire are those of chunks `from`, `from` + 1 and so on, none missing. */
  ghost predicate Consecutive(s: Net, from: nat) {
    |s.data| == |s.dataNo| && forall i :: 0 <= i < |s.dataNo| ==> s.dataNo[i] == from + i
  }

  /** The answers on the way back from the `at`-th on are ACKs for chunks `from`, `from` + 1 and so on. */
  ghost predicate AcksFrom(s: Net, at: nat, from: nat) {
    && |s.back| == |s.backNo|
    && forall i :: at <= i < |s.back| ==> s.back[i].Ack? && s.backNo[i] == from + (i - at)
  }

  /** There is room for every chunk still to come. */
  ghost predicate RoomForAll(s: Net)
    requires s.rx.Next() <= |s.tx.chunks|
  {
    |s.rx.buf| + |Flatten(s.tx.chunks[s.rx.Next()..])| <= s.rx.cap
  }

  /** One more of them is delivered. */
  lemma DeliverNext(s: Net, at: nat, from: nat, first: nat)
    requires Inv(s) && s.data != [] && Consecutive(s, from) && from <= s.rx.Next() && RoomForAll(s)
    requires at <= |s.back| && AcksFrom(s, at, first) && first + (|s.back| - at) == from
    ensures var r := Step(s, DeliverData);
      && Inv(r) && Consecutive(r, from + 1) && from + 1 <= r.rx.Next() && RoomForAll(r)
      && r.tx == s.tx && |r.data| == |s.data| - 1 && s.rx.Next() <= r.rx.Next()
      && at <= |r.back| && AcksFrom(r, at, first) && first + (|r.back| - at) == from + 1
  {
    hide Inv, RxPayload, SeqOf, Step;
    InvLengths(s);
    DeliveryAnswers(s);
    StepKeepsInv(s, DeliverData);
    var next := s.rx.Next();
    if from == next {
      assert s.tx.chunks[next..] == [s.tx.chunks[next]] + s.tx.chunks[next + 1..];
      assert Flatten(s.tx.chunks[next..]) == s.tx.chunks[next] + Flatten(s.tx.chunks[next + 1..]);
    }
  }

  /** A wire that holds consecutive chunks, none behind the cursor, delivers and acknowledges them all. */
  lemma {:induction false} DeliverAll(s: Net, at: nat, from: nat, first: nat)
    requires Inv(s) && Consecutive(s, from) && from <= s.rx.Next() && RoomForAll(s)
    requires at <= |s.back| && AcksFrom(s, at, first) && first + (|s.back| - at) == from
    ensures var r := Run(s, Again(DeliverData, |s.data|));
      && Inv(r) && r.data == [] && r.tx == s.tx && r.rx.Next() >= from + |s.data|
      && at <= |r.back| && AcksFrom(r, at, first) && first + (|r.back| - at) == from + |s.data|
    decreases |s.data|
  {
    hide Inv, Step, AcksFrom, RoomForAll;
    InvLengths(s);
    if s.data != [] {
      DeliverNext(s, at, from, first);
      RunOne(s, DeliverData, Again(DeliverData, |s.data| - 1));
      DeliverAll(Step(s, DeliverData), at, from + 1, first);
    }
  }

  /** When the last ACK of the window is all that is left of them, it alone leaves nothing pending. */
  lemma LastAckSuffices(s: Net, count: nat)
    requires Inv(s) && s.back != [] && s.back[|s.back| - 1].Ack? && s.backNo[|s.back| - 1] == |s.tx.chunks| - 1
    ensures var r := Run(s, Again(LoseBack(0), |s.back| - 1) + [DeliverBack(count)]);
      r.tx.base == |r.tx.chunks| && r.tx.chunks == s.tx.chunks && r.back == []
  {
    hide Inv, Step;
    var k := |s.back| - 1;
    InvLengths(s);
    LoseBackFront(s, k);
    RunTwo(s, Again(LoseBack(0), k), [DeliverBack(count)]);
    var m := Run(s, Again(LoseBack(0), k));
    RunOne(m, DeliverBack(count), []);
    AckIsCumulative(m, count);
    assert [DeliverBack(count)] + [] == [DeliverBack(count)];
  }

  /**
    One round over quiet wires clears the window: all of it is resent and delivered, every ACK but the last is lost, and
    the last leaves nothing pending and nothing missing.
   */
  lemma WindowClears(s: Net)
    requires Inv(s) && s.data == [] && s.back == [] && s.tx.Pending() > 0 && RoomForAll(s)
    ensures var k := s.tx.Pending();
      var r := Run(s, [Resend(k)] + Again(DeliverData, k) + (Again(LoseBack(0), k - 1) + [DeliverBack(0)]));
      r.tx.base == |r.tx.chunks| == r.rx.Next() && r.tx.chunks == s.tx.chunks
  {
    hide Inv, Step, RoomForAll, AcksFrom;
    InvLengths(s);
    var k := s.tx.Pending();
    var a := Step(s, Resend(k));
    RoundIsConsecutive(s);
    DeliverAll(a, 0, s.tx.base, s.tx.base);
    var b := Run(a, Again(DeliverData, k));
    RunOne(s, Resend(k), Again(DeliverData, k));
    RunTwo(s, [Resend(k)] + Again(DeliverData, k), Again(LoseBack(0), k - 1) + [DeliverBack(0)]);
    InvLengths(b);
    LastIsAck(b, s.tx.base);
    LastAckSuffices(b, 0);
    RunKeepsRx(b, k - 1);
  }

  lemma LastIsAck(s: Net, from: nat)
    requires s.back != [] && AcksFrom(s, 0, from)
    ensures s.back[|s.back| - 1].Ack? && s.backNo[|s.back| - 1] == from + |s.back| - 1
  {
  }

  lemma RoundIsConsecutive(s: Net)
    requires Inv(s) && s.data == [] && s.back == [] && RoomForAll(s)
    ensures var a := Step(s, Resend(s.tx.Pending()));
      && Inv(a) && a.tx == s.tx && a.rx == s.rx && a.back == [] && |a.data| == s.tx.Pending()
      && Consecutive(a, s.tx.base) && AcksFrom(a, 0, s.tx.base) && s.tx.base <= s.rx.Next() && RoomForAll(a)
  {
    StepKeepsInv(s, Resend(s.tx.Pending()));
  }

  lemma RunKeepsRx(s: Net, k: nat)
    requires Inv(s) && k == |s.back| - 1
    ensures Run(s, Again(LoseBack(0), k) + [DeliverBack(0)]).rx == s.rx
  {
    hide Inv, Step;
    InvLengths(s);
    LoseBackFront(s, k);
    RunTwo(s, Again(LoseBack(0), k), [DeliverBack(0)]);
    var m := Run(s, Again(LoseBack(0), k));
    RunOne(m, DeliverBack(0), []);
    assert [DeliverBack(0)] + [] == [DeliverBack(0)];
    if m.back[0].Ack? { AckIsCumulative(m, 0); } else { NakIsCumulative(m, 0); }
  }

  // ----- a loss repaired by a NAK -----

  /** The oldest frame on the data wire shows the receiver that it misses chunk `Next()`, or has no room for it. */
  ghost predicate ShowsLoss(s: Net)
    requires Inv(s) && s.data != []
  {
    s.dataNo[0] > s.rx.Next() || (s.dataNo[0] == s.rx.Next() && !HasRoom(s.rx, s.data[0].payload))
  }

  /** Delivers it, loses every answer on the way ahead of its NAK, and delivers that. */
  function Report(s: Net, count: nat): seq<Event> {
    [DeliverData] + (Again(LoseBack(0), |s.back|) + [DeliverBack(count)])
  }

  /** No timer is needed: the NAK alone brings the missing chunk back on the wire, and frees everything before it. */
  lemma NakRepairs(s: Net, count: nat)
    requires Inv(s) && s.data != [] && ShowsLoss(s) && count >= 1
    ensures var r := Run(s, Report(s, count));
      && Inv(r) && r.rx == s.rx && r.tx == s.tx.(base := s.rx.Next()) && |r.data| >= |s.data|
      && s.rx.Next() < |s.tx.chunks| && r.dataNo[|s.data| - 1] == s.rx.Next()
      && r.data[|s.data| - 1] == DataFrame(SeqOf(s.rx.Next()), s.tx.chunks[s.rx.Next()])
  {
    hide Step, RxPayload, SeqOf;
    var k := |s.back|;
    DeliveryAnswers(s);
    StepKeepsInv(s, DeliverData);
    var a := Step(s, DeliverData);
    RunOne(s, DeliverData, Again(LoseBack(0), k) + [DeliverBack(count)]);
    LoseBackFront(a, k);
    RunTwo(a, Again(LoseBack(0), k), [DeliverBack(count)]);
    var m := Run(a, Again(LoseBack(0), k));
    RunOne(m, DeliverBack(count), []);
    assert [DeliverBack(count)] + [] == [DeliverBack(count)];
    NakIsCumulative(m, count);
    StepKeepsInv(m, DeliverBack(count));
  }

  /** And with room for it the receiver is past the loss, though every other frame is lost and no RTO round is sent. */
  lemma LossIsRepaired(s: Net, count: nat)
    requires Inv(s) && s.data != [] && ShowsLoss(s) && count >= 1
    requires s.rx.Next() < |s.tx.chunks| && HasRoom(s.rx, s.tx.chunks[s.rx.Next()])
    ensures var r := Run(s, Report(s, count) + (Again(LoseData(0), |s.data| - 1) + [DeliverData]));
      r.rx.pushed == s.rx.pushed + [s.tx.chunks[s.rx.Next()]]
  {
    hide Step, RxPayload, Inv, SeqOf;
    InvLengths(s);
    var k := |s.data| - 1;
    NakRepairs(s, count);
    var a := Run(s, Report(s, count));
    RunTwo(s, Report(s, count), Again(LoseData(0), k) + [DeliverData]);
    InvLengths(a);
    LoseDataFront(a, k);
    RunTwo(a, Again(LoseData(0), k), [DeliverData]);
    var m := Run(a, Again(LoseData(0), k));
    RunOne(m, DeliverData, []);
    assert [DeliverData] + [] == [DeliverData];
    DeliveryAnswers(m);
  }
}
