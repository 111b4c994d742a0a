/**
  Frames on the wire: a COBS-encoded body between two zero bytes, told apart by type byte, length and CRC-8.
  `Print` is what the transmit side builds, `Feed` what the streaming receiver makes of any bytes, and the two
  are inverse on well-formed frames whatever garbage precedes them.
 */
module Framer {
  import opened Wire
  import opened Cobs
  import opened Crc
  import opened SeqSpace

  const BUF_SIZE: int := 256

  datatype FrameEvent =
    | Payload(cobsSeq: byte, payload: seq<byte>)
    | AckSeen(acked: byte, bytes: uint16)
    | NakSeen(missing: byte)
    | FrameErr

  // ----- printing -----

  /** A frame the transmit side can be asked for. */
  predicate Sendable(f: FrameEvent) {
    match f
    case Payload(q, p) => q <= SEQ_MAX && |p| <= MAX_CHUNK
    case AckSeen(_, _) => true
    case NakSeen(_) => true
    case FrameErr => false
  }

  function WithCrc(u: seq<byte>): seq<byte> { u + [Crc8(u)] }

  function Body(f: FrameEvent): seq<byte>
    requires Sendable(f)
  {
    match f
    case Payload(q, p) => [q] + p
    case AckSeen(q, n) => [ACK_TYPE, q, n % 0x100, n / 0x100]
    case NakSeen(q) => [NAK_TYPE, q]
  }

  /** The bodies: the sequence and the chunk, or the type, the sequence and, for an ACK, the count, low byte first. */
  lemma BodyLayout(q: byte, n: uint16, p: seq<byte>)
    requires q <= SEQ_MAX && |p| <= MAX_CHUNK
    ensures Body(Payload(q, p)) == [q] + p && Body(NakSeen(q)) == [0xFE, q]
    ensures var b := Body(AckSeen(q, n)); |b| == 4 && b[0] == 0xFF && b[1] == q && b[2] as int + 0x100 * b[3] as int == n
  {
  }

  /** An ACK of the older form, without a count, is understood as one of none. */
  lemma ShortAckUnderstood(q: byte)
    ensures Classify(WithCrc([0xFF, q])) == AckSeen(q, 0)
  {
    assert WithCrc([0xFF, q])[..2] == [0xFF, q];
  }

  /** A body that is no ACK or NAK and whose last byte is not its checksum is an error, and never a chunk. */
  lemma DamageIsAnError(d: seq<byte>)
    requires |d| >= 2 && d[0] != 0xFF && d[0] != 0xFE && Crc8(d[..|d| - 1]) != d[|d| - 1]
    ensures Classify(d) == FrameErr
  {
  }

  function Print(f: FrameEvent): seq<byte>
    requires Sendable(f)
  {
    [0] + Enc(WithCrc(Body(f))) + [0]
  }

  /** Every frame fits 255 bytes, and its body the receiver's two 256-byte buffers; only its two ends are zero. */
  lemma FrameShape(f: FrameEvent)
    requires Sendable(f)
    ensures var w := Print(f);
      && |w| <= 255 && w[0] == 0 && w[|w| - 1] == 0
      && (forall i :: 0 < i < |w| - 1 ==> w[i] != 0)
      && 1 <= |Enc(WithCrc(Body(f)))| <= BUF_SIZE && |WithCrc(Body(f))| <= BUF_SIZE
  {
    EncodingShape(WithCrc(Body(f)));
  }

  // ----- parsing -----

  /** What a complete body is: the tests in the receiver's order. */
  function Classify(d: seq<byte>): FrameEvent {
    if |d| >= 5 && d[0] == ACK_TYPE && Crc8(d[..4]) == d[4] then AckSeen(d[1], Little2(d[2], d[3]))
    else if |d| >= 3 && d[0] == ACK_TYPE && Crc8(d[..2]) == d[2] then AckSeen(d[1], 0)
    else if |d| >= 3 && d[0] == NAK_TYPE && Crc8(d[..2]) == d[2] then NakSeen(d[1])
    else if |d| >= 2 && Crc8(d[..|d| - 1]) == d[|d| - 1] then Payload(d[0], d[1..|d| - 1])
    else FrameErr
  }

  /** What is held back after one byte: a zero closes the body, any other byte joins it or overflows it. */
  function Push(buf: seq<byte>, b: byte): (r: seq<byte>)
    requires |buf| <= BUF_SIZE
    ensures |r| <= BUF_SIZE
  {
    if b != 0 && |buf| < BUF_SIZE then buf + [b] else []
  }

  /** What one byte makes the framer report. */
  function Report(buf: seq<byte>, b: byte): seq<FrameEvent> {
    if b == 0 then (if buf == [] then [] else [Classify(Decode(buf))])
    else if |buf| < BUF_SIZE then [] else [FrameErr]
  }

  /** What is held back after a delivery. */
  function After(buf: seq<byte>, data: seq<byte>): (r: seq<byte>)
    requires |buf| <= BUF_SIZE
    ensures |r| <= BUF_SIZE
    decreases |data|
  {
    if data == [] then buf else After(Push(buf, data[0]), data[1..])
  }

  /** What a delivery makes the framer report. */
  function Events(buf: seq<byte>, data: seq<byte>): seq<FrameEvent>
    requires |buf| <= BUF_SIZE
    decreases |data|
  {
    if data == [] then [] else Report(buf, data[0]) + Events(Push(buf, data[0]), data[1..])
  }

  // ----- the stream may be delivered in any pieces -----

  lemma NothingYet(buf: seq<byte>)
    requires |buf| <= BUF_SIZE
    ensures After(buf, []) == buf && Events(buf, []) == []
  {
  }

  lemma {:induction false} FeedSplit(buf: seq<byte>, x: seq<byte>, y: seq<byte>)
    requires |buf| <= BUF_SIZE
    ensures After(buf, x + y) == After(After(buf, x), y)
    ensures Events(buf, x + y) == Events(buf, x) + Events(After(buf, x), y)
    decreases |x|
  {
    hide Report, Push;
    if x == [] {
      assert x + y == y;
      NothingYet(buf);
    } else {
      var next := Push(buf, x[0]);
      assert (x + y)[1..] == x[1..] + y;
      FeedSplit(next, x[1..], y);
      Assoc(Report(buf, x[0]), Events(next, x[1..]), Events(After(next, x[1..]), y));
    }
  }

  /** The state and the events of a stream delivered chunk by chunk. */
  function AfterChunks(buf: seq<byte>, chunks: seq<seq<byte>>): seq<byte>
    requires |buf| <= BUF_SIZE
    decreases |chunks|
  {
    if chunks == [] then buf else AfterChunks(After(buf, chunks[0]), chunks[1..])
  }

  function EventsOfChunks(buf: seq<byte>, chunks: seq<seq<byte>>): seq<FrameEvent>
    requires |buf| <= BUF_SIZE
    decreases |chunks|
  {
    if chunks == [] then [] else Events(buf, chunks[0]) + EventsOfChunks(After(buf, chunks[0]), chunks[1..])
  }

  /** Delivery boundaries do not matter: any split of a stream gives the state and the events of the whole. */
  lemma {:induction false} AnySplit(buf: seq<byte>, chunks: seq<seq<byte>>)
    requires |buf| <= BUF_SIZE
    ensures AfterChunks(buf, chunks) == After(buf, Flatten(chunks))
    ensures EventsOfChunks(buf, chunks) == Events(buf, Flatten(chunks))
    decreases |chunks|
  {
    if chunks != [] {
      AnySplit(After(buf, chunks[0]), chunks[1..]);
      FeedSplit(buf, chunks[0], Flatten(chunks[1..]));
    }
  }

  // ----- printed frames are recognised -----

  lemma ZeroFreeRest(s: seq<byte>)
    requires ZeroFree(s) && s != []
    ensures s[0] != 0 && ZeroFree(s[1..])
  {
  }

  lemma {:induction false} Accumulates(buf: seq<byte>, s: seq<byte>)
    requires ZeroFree(s) && |buf| + |s| <= BUF_SIZE
    ensures After(buf, s) == buf + s && Events(buf, s) == []
    decreases |s|
  {
    hide Classify, Decode, ZeroFree;
    if s == [] {
      assert buf + s == buf;
      NothingYet(buf);
    } else {
      ZeroFreeRest(s);
      Accumulates(buf + [s[0]], s[1..]);
      assert buf + [s[0]] + s[1..] == buf + s;
    }
  }

  lemma ClassifiesOwn(f: FrameEvent)
    requires Sendable(f)
    ensures Classify(WithCrc(Body(f))) == f
  {
    var u := Body(f);
    var d := WithCrc(u);
    assert d[..|d| - 1] == u && d[|d| - 1] == Crc8(u);
    match f
    case Payload(q, p) => assert d[1..|d| - 1] == p;
    case AckSeen(q, n) => assert d[..4] == u;
    case NakSeen(q) => assert d[..2] == u;
  }

  lemma OneByte(buf: seq<byte>, b: byte)
    requires |buf| <= BUF_SIZE
    ensures After(buf, [b]) == Push(buf, b) && Events(buf, [b]) == Report(buf, b)
  {
    assert [b][1..] == [];
    assert Report(buf, b) + [] == Report(buf, b);
  }

  lemma ZeroFlushes(buf: seq<byte>, garbage: seq<byte>)
    requires |buf| <= BUF_SIZE
    ensures After(buf, garbage + [0]) == []
  {
    FeedSplit(buf, garbage, [0]);
    OneByte(After(buf, garbage), 0);
  }

  /** From an empty buffer, an encoded body and its closing zero report the frame. */
  lemma BodyReported(f: FrameEvent)
    requires Sendable(f)
    ensures var e := Enc(WithCrc(Body(f)));
      After([], e + [0]) == [] && Events([], e + [0]) == [f]
  {
    hide After, Events;
    var d := WithCrc(Body(f));
    EncodingShape(d);
    DecodeEncode(d);
    ClassifiesOwn(f);
    Accumulates([], Enc(d));
    assert [] + Enc(d) == Enc(d);
    FeedSplit([], Enc(d), [0]);
    OneByte(Enc(d), 0);
  }

  lemma Regroup(g: seq<byte>, z: seq<byte>, e: seq<byte>)
    ensures g + (z + e + z) == (g + z) + (e + z)
  {
  }

  /**
    After any bytes at all, a well-formed frame is reported once, as its own kind and with its own content;
    the garbage before it is reported exactly as if a single zero had ended it.
   */
  lemma FrameReported(buf: seq<byte>, garbage: seq<byte>, f: FrameEvent)
    requires |buf| <= BUF_SIZE && Sendable(f)
    ensures After(buf, garbage + Print(f)) == []
    ensures Events(buf, garbage + Print(f)) == Events(buf, garbage + [0]) + [f]
  {
    hide After, Events;
    var e := Enc(WithCrc(Body(f)));
    Regroup(garbage, [0], e);
    ZeroFlushes(buf, garbage);
    BodyReported(f);
    FeedSplit(buf, garbage + [0], e + [0]);
  }

  lemma AloneReported(f: FrameEvent)
    requires Sendable(f)
    ensures After([], Print(f)) == [] && Events([], Print(f)) == [f]
  {
    hide After, Events, Print, Sendable;
    FrameReported([], [], f);
    OneByte([], 0);
    ZeroAlone();
    assert [] + Print(f) == Print(f) && [] + [0] == [0];
  }

  /** The fewest bytes, its closing zero among them, that can make the framer report `e`. */
  function Needed(e: FrameEvent): int {
    match e
    case Payload(_, p) => |p| + 4
    case AckSeen(_, _) => 5
    case NakSeen(_) => 5
    case FrameErr => 0
  }

  lemma ReportNeeds(buf: seq<byte>, b: byte, e: FrameEvent)
    requires e in Report(buf, b)
    ensures |buf| + 1 >= Needed(e)
  {
    if b == 0 && |buf| > 0 { DecShorter(buf); }
  }

  /** No report comes out of fewer bytes than its frame needs. */
  lemma {:induction false} EventsNeed(buf: seq<byte>, data: seq<byte>, e: FrameEvent)
    requires |buf| <= BUF_SIZE && e in Events(buf, data)
    ensures |buf| + |data| >= Needed(e)
    decreases |data|
  {
    hide Report, Needed;
    if e in Report(buf, data[0]) {
      ReportNeeds(buf, data[0], e);
    } else {
      PushGrows(buf, data[0]);
      EventsNeed(Push(buf, data[0]), data[1..], e);
    }
  }

  lemma PushGrows(buf: seq<byte>, b: byte)
    requires |buf| <= BUF_SIZE
    ensures |Push(buf, b)| <= |buf| + 1
  {
  }

  /** A printed frame has fewer than five bytes to spare. */
  lemma PrintIsTight(f: FrameEvent)
    requires Sendable(f)
    ensures |Print(f)| - 5 < Needed(f)
  {
    EncodingShape(WithCrc(Body(f)));
  }

  ghost predicate AllSendable(fs: seq<FrameEvent>) {
    forall i :: 0 <= i < |fs| ==> Sendable(fs[i])
  }

  ghost function PrintAll(fs: seq<FrameEvent>): seq<byte>
    requires AllSendable(fs)
  {
    if fs == [] then [] else Print(fs[0]) + PrintAll(fs[1..])
  }

  lemma ZeroAlone()
    ensures Report([], 0) == []
  {
  }

  lemma {:induction false} FramesReported(fs: seq<FrameEvent>)
    requires AllSendable(fs)
    ensures After([], PrintAll(fs)) == [] && Events([], PrintAll(fs)) == fs
  {
    hide After, Events, Report, Print, Sendable;
    NothingYet([]);
    if fs != [] {
      FrameReported([], [], fs[0]);
      assert [] + Print(fs[0]) == Print(fs[0]);
      OneByte([], 0);
      assert [] + [0] == [0] && Report([], 0) == [] by { ZeroAlone(); }
      FeedSplit([], Print(fs[0]), PrintAll(fs[1..]));
      FramesReported(fs[1..]);
      assert [fs[0]] + fs[1..] == fs;
    }
  }

  /**
    Print then parse: whatever bytes came before, in whatever pieces all of it is delivered, a list of frames is
    reported as exactly that list, each once and in order.
   */
  lemma PrintedFramesArrive(garbage: seq<byte>, fs: seq<FrameEvent>, chunks: seq<seq<byte>>)
    requires AllSendable(fs) && Flatten(chunks) == garbage + [0] + PrintAll(fs)
    ensures EventsOfChunks([], chunks) == Events([], garbage + [0]) + fs
  {
    hide After, Events;
    AnySplit([], chunks);
    FeedSplit([], garbage + [0], PrintAll(fs));
    ZeroFlushes([], garbage);
    FramesReported(fs);
  }

  /** A body too long for the buffer is an error, and what comes behind it starts a new one. */
  lemma OverlongBodyIsAnError(s: seq<byte>, b: byte)
    requires |s| == BUF_SIZE && ZeroFree(s) && b != 0
    ensures After([], s + [b]) == [] && Events([], s + [b]) == [FrameErr]
  {
    hide After, Events;
    Accumulates([], s);
    assert [] + s == s;
    ExtendBy([], s, b);
  }

  // ----- the transmit side -----

  /** Builds one data frame; a chunk longer than 250 bytes is cut to 250. */
  method BuildFrame(q: byte, b: seq<byte>) returns (wire: seq<byte>)
    requires q <= SEQ_MAX
    ensures wire == Print(Payload(q, if |b| > MAX_CHUNK then b[..MAX_CHUNK] else b)) && |wire| <= 255
  {
    var n := if |b| > MAX_CHUNK then MAX_CHUNK else |b|;
    FrameShape(Payload(q, b[..n]));
    assert b[..|b|] == b;
    var u := [q] + b[..n];
    var crc := Crc8Loop(u);
    wire := Enclose(u + [crc], MAX_CHUNK + MSG_HDR);
  }

  /** Builds an ACK or NAK frame from its body; the last byte of the body becomes its CRC. */
  method BuildSmall(u: seq<byte>) returns (wire: seq<byte>)
    requires 1 <= |u| <= 5
    ensures wire == [0] + Enc(WithCrc(u[..|u| - 1])) + [0]
  {
    var crc := Crc8Loop(u[..|u| - 1]);
    wire := Enclose(u[..|u| - 1] + [crc], 16);
  }

  method BuildAck(acked: byte, bytes: uint16) returns (wire: seq<byte>)
    ensures wire == Print(AckSeen(acked, bytes))
  {
    var u: seq<byte> := [ACK_TYPE, acked, bytes % 0x100, bytes / 0x100, 0];
    assert u[..4] == Body(AckSeen(acked, bytes));
    wire := BuildSmall(u);
  }

  method BuildNak(missing: byte) returns (wire: seq<byte>)
    ensures wire == Print(NakSeen(missing))
  {
    var u: seq<byte> := [NAK_TYPE, missing, 0];
    assert u[..2] == Body(NakSeen(missing));
    wire := BuildSmall(u);
  }

  /** Encodes a body into a frame buffer of `size` bytes, between the two zeros. */
  method Enclose(d: seq<byte>, size: nat) returns (wire: seq<byte>)
    requires |d| + |d| / FULL + 3 <= size
    ensures wire == [0] + Enc(d) + [0]
  {
    var unenc := new byte[|d|](i requires 0 <= i < |d| => d[i]);
    var frame := new byte[size];
    frame[0] := 0;
    assert unenc[..|d|] == d;
    EncodingShape(d);
    var encLen := Encode(unenc, |d|, frame, 1);
    ghost var rest := frame[1 + encLen..];
    assert frame[..1] == [0] && frame[1..1 + encLen] == Enc(d);
    frame[1 + encLen] := 0;
    wire := frame[..encLen + 2];
    assert wire == frame[..1] + frame[1..1 + encLen] + [0];
  }

  // ----- the receive side -----

  /** The answer to the `k`-th report: whether the listener gave the link up. */
  function Dropped(answers: seq<bool>, k: nat): bool {
    k < |answers| && answers[k]
  }

  /** What a decoded body is: the tests in the receiver's order, each with its own checksum. */
  method ClassifyBody(d: seq<byte>) returns (e: FrameEvent)
    ensures e == Classify(d)
  {
    var crc4, crc2, crcAll: byte := 0, 0, 0;
    if |d| >= 5 { crc4 := Crc8Loop(d[..4]); }
    if |d| >= 3 { crc2 := Crc8Loop(d[..2]); }
    if |d| >= 2 { crcAll := Crc8Loop(d[..|d| - 1]); }
    if |d| >= 5 && d[0] == ACK_TYPE && crc4 == d[4] {
      e := AckSeen(d[1], Little2(d[2], d[3]));
    } else if |d| >= 3 && d[0] == ACK_TYPE && crc2 == d[2] {
      e := AckSeen(d[1], 0);
    } else if |d| >= 3 && d[0] == NAK_TYPE && crc2 == d[2] {
      e := NakSeen(d[1]);
    } else if |d| >= 2 && crcAll == d[|d| - 1] {
      e := Payload(d[0], d[1..|d| - 1]);
    } else {
      e := FrameErr;
    }
  }

  class FrameRx {
    const buf: array<byte>
    const decoded: array<byte>
    var idx: nat

    ghost predicate Valid()
      reads this
    {
      buf != decoded && buf.Length == BUF_SIZE && decoded.Length == BUF_SIZE && idx <= BUF_SIZE
    }

    ghost function Held(): (h: seq<byte>)
      requires Valid()
      reads this, buf
      ensures |h| <= BUF_SIZE
    {
      buf[..idx]
    }

    constructor ()
      ensures Valid() && Held() == [] && fresh(buf) && fresh(decoded)
    {
      buf := new byte[BUF_SIZE];
      decoded := new byte[BUF_SIZE];
      idx := 0;
    }

    /** Decodes the body collected so far and says what it is. */
    method CloseBody() returns (e: FrameEvent)
      requires Valid() && idx > 0
      modifies this`idx, decoded
      ensures Valid() && Held() == [] && e == Classify(Decode(old(Held())))
    {
      hide Classify, Decode;
      var decLen := DecodeInto(buf, idx, decoded);
      idx := 0;
      e := ClassifyBody(decoded[..decLen]);
    }

    /** One byte that may close, extend or overflow the body. */
    method PushByte(b: byte) returns (e: Option<FrameEvent>)
      requires Valid()
      modifies this`idx, buf, decoded
      ensures Valid() && Held() == Push(old(Held()), b)
      ensures Report(old(Held()), b) == match e { case None => [] case Some(x) => [x] }
    {
      e := None;
      if b == 0 {
        if idx == 0 {
          return;
        }
        var x := CloseBody();
        e := Some(x);
      } else if idx < BUF_SIZE {
        buf[idx] := b;
        idx := idx + 1;
      } else {
        idx := 0;
        e := Some(FrameErr);
      }
    }

    /** The same, as one more byte of a stream of which `seen` has come since `h` was held. */
    method TakeByte(b: byte, ghost h: seq<byte>, ghost seen: seq<byte>) returns (e: seq<FrameEvent>)
      requires Valid() && |h| <= BUF_SIZE && Held() == After(h, seen)
      modifies this`idx, buf, decoded
      ensures Valid() && |e| <= 1 && Held() == After(h, seen + [b])
      ensures Events(h, seen + [b]) == Events(h, seen) + e
    {
      hide After, Events, Push, Report;
      ExtendBy(h, seen, b);
      var x := PushByte(b);
      e := if x.Some? then [x.value] else [];
    }

    /** Two zeros in a row with nothing held: the loop takes both at once. */
    lemma SkipTwo(h: seq<byte>, seen: seq<byte>)
      requires Valid() && |h| <= BUF_SIZE && Held() == After(h, seen) == []
      ensures After(h, seen + [0] + [0]) == [] && Events(h, seen + [0] + [0]) == Events(h, seen)
    {
      hide After, Events;
      ExtendBy(h, seen, 0);
      ExtendBy(h, seen + [0], 0);
      assert Events(h, seen) + [] + [] == Events(h, seen);
    }

    /**
      One delivery: reports exactly the events of the bytes consumed, and consumes all of them unless the listener
      gives the link up, which stops the loop right behind the byte it was told about.
     */
    method Feed(data: seq<byte>, answers: seq<bool>) returns (n: nat, events: seq<FrameEvent>)
      requires Valid()
      modifies this`idx, buf, decoded
      ensures Valid() && n <= |data|
      ensures Held() == After(old(Held()), data[..n]) && events == Events(old(Held()), data[..n])
      ensures forall k :: 0 <= k < |events| - 1 ==> !Dropped(answers, k)
      ensures n < |data| ==> events != [] && Dropped(answers, |events| - 1)
    {
      hide After, Events, Held, Dropped;
      n, events := 0, [];
      ghost var h, seen := Held(), [];
      NothingYet(h);
      while n < |data|
        invariant Valid() && n <= |data| && seen == data[..n]
        invariant Held() == After(h, seen) && events == Events(h, seen)
        invariant forall k :: 0 <= k < |events| ==> !Dropped(answers, k)
      {
        var b := data[n];
        if b == 0 && idx == 0 && n + 1 < |data| && data[n + 1] == 0 {
          NothingHeld();
          SkipTwo(h, seen);
          seen, n := seen + [0] + [0], n + 2;
        } else {
          var e := TakeByte(b, h, seen);
          seen, n, events := seen + [b], n + 1, events + e;
          assert seen == data[..n];
          if e != [] && Dropped(answers, |events| - 1) {
            return;
          }
        }
      }
    }

    lemma NothingHeld()
      requires Valid() && idx == 0
      ensures Held() == []
    {
    }
  }

  /** One more byte of a delivery. */
  lemma ExtendBy(buf: seq<byte>, x: seq<byte>, b: byte)
    requires |buf| <= BUF_SIZE
    ensures After(buf, x + [b]) == Push(After(buf, x), b)
    ensures Events(buf, x + [b]) == Events(buf, x) + Report(After(buf, x), b)
  {
    hide After, Events;
    FeedSplit(buf, x, [b]);
    OneByte(After(buf, x), b);
  }
}
