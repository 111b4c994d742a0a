/**
  Frames over the shared wire: through the demultiplexer, in deliveries of any size, into the framer. Data frames
  get through whole as long as no five bytes of the stream look like a control frame, and only then.
 */
module WirePath {
  import opened Wire
  import opened SeqSpace
  import C = Cobs
  import Crc
  import D = Demux
  import F = Framer

  predicate NoCtrl(items: seq<D.Item>) {
    forall i :: 0 <= i < |items| ==> items[i].ToFramer?
  }

  /** What the framer is given. */
  function FramerBytes(items: seq<D.Item>): seq<byte> {
    if items == [] then []
    else (match items[0] case Ctrl(_) => [] case ToFramer(b) => [b]) + FramerBytes(items[1..])
  }

  /** Nowhere in the stream does a CRC-valid control frame start. */
  ghost predicate CtrlFree(s: seq<byte>) {
    forall k: nat :: !D.StartsAt(s, k)
  }

  lemma StartsBehind(a: seq<byte>, b: seq<byte>, k: nat)
    ensures D.StartsAt(b, k) <==> D.StartsAt(a + b, |a| + k)
  {
    if k + D.CTRL <= |b| {
      assert (a + b)[|a| + k..|a| + k + D.CTRL] == b[k..k + D.CTRL];
    }
  }

  lemma SuffixFree(a: seq<byte>, b: seq<byte>)
    requires CtrlFree(a + b)
    ensures CtrlFree(b)
  {
    forall k: nat
      ensures !D.StartsAt(b, k)
    {
      StartsBehind(a, b, k);
    }
  }

  // ----- one delivery -----

  lemma {:induction false} ScanFree(s: seq<byte>)
    requires CtrlFree(s)
    ensures NoCtrl(D.Scan(s))
  {
    if s != [] && !D.MayStart(s) {
      assert !D.StartsAt(s, 0);
      assert |s| >= D.CTRL ==> s[0..D.CTRL] == s[..D.CTRL];
      assert s == s[..1] + s[1..];
      SuffixFree(s[..1], s[1..]);
      ScanFree(s[1..]);
    }
  }

  lemma CtrlBehind(item: D.Item, rest: seq<D.Item>)
    requires !NoCtrl(rest)
    ensures !NoCtrl([item] + rest)
  {
    var i :| 0 <= i < |rest| && !rest[i].ToFramer?;
    assert ([item] + rest)[i + 1] == rest[i];
  }

  lemma {:induction false} ScanEats(s: seq<byte>, k: nat)
    requires D.StartsAt(s, k)
    ensures !NoCtrl(D.Scan(s))
  {
    if D.IsCtrl(s[..D.CTRL]) {
      assert D.Scan(s)[0] == D.Ctrl(s[..D.CTRL]);
    } else {
      assert k > 0 by { assert s[0..D.CTRL] == s[..D.CTRL]; }
      assert s == s[..1] + s[1..];
      StartsBehind(s[..1], s[1..], k - 1);
      ScanEats(s[1..], k - 1);
      CtrlBehind(D.ToFramer(s[0]), D.Scan(s[1..]));
    }
  }

  /** A control frame's bytes are missing from what the framer is given. */
  lemma {:induction false} FramerBytesExact(items: seq<D.Item>)
    requires D.CtrlsValid(items)
    ensures |FramerBytes(items)| <= |D.Bytes(items)|
    ensures FramerBytes(items) == D.Bytes(items) <==> NoCtrl(items)
    ensures NoCtrl(items) || |FramerBytes(items)| + D.CTRL <= |D.Bytes(items)|
  {
    if items != [] {
      var rest := items[1..];
      assert D.CtrlsValid(rest) by {
        forall i | 0 <= i < |rest| && rest[i].Ctrl?
          ensures D.IsCtrl(rest[i].frame)
        {
          assert rest[i] == items[i + 1];
        }
      }
      FramerBytesExact(rest);
      assert NoCtrl(items) <==> items[0].ToFramer? && NoCtrl(rest) by {
        assert items == [items[0]] + rest;
      }
    }
  }

  /**
    One delivery reaches the framer whole, but for a tail still in doubt, if and only if no control frame starts
    anywhere in it. A data frame that holds such a pattern does not get through in one delivery, and a resend, being
    the same bytes, repeats the pattern.
   */
  lemma DeliveryPasses(s: seq<byte>)
    ensures FramerBytes(D.Scan(s)) + D.Tail(s) == s <==> CtrlFree(s)
  {
    D.ScanConserves(s);
    D.ScanSound(s);
    FramerBytesExact(D.Scan(s));
    if CtrlFree(s) {
      ScanFree(s);
    } else {
      var k: nat :| D.StartsAt(s, k);
      ScanEats(s, k);
      assert |FramerBytes(D.Scan(s)) + D.Tail(s)| < |D.Bytes(D.Scan(s)) + D.Tail(s)|;
    }
  }

  /** What a control frame takes away is five bytes at least. */
  lemma EatenBytes(s: seq<byte>)
    requires !CtrlFree(s)
    ensures |FramerBytes(D.Scan(s)) + D.Tail(s)| + D.CTRL <= |s|
  {
    hide D.Scan, D.Tail, FramerBytes;
    D.ScanConserves(s);
    D.ScanSound(s);
    FramerBytesExact(D.Scan(s));
    var k: nat :| D.StartsAt(s, k);
    ScanEats(s, k);
  }

  /**
    A frame delivered in one piece is reported as itself if and only if no control frame starts anywhere in its bytes.
    Otherwise five of them are gone, and fewer than it needs are left.
   */
  lemma FrameArrives(f: F.FrameEvent)
    requires F.Sendable(f)
    ensures var s := F.Print(f);
      F.Events([], FramerBytes(D.Scan(s)) + D.Tail(s)) == [f] <==> CtrlFree(s)
  {
    hide D.Scan, D.Tail, FramerBytes, F.Print, F.Events, F.Needed, F.Sendable;
    var s := F.Print(f);
    var x := FramerBytes(D.Scan(s)) + D.Tail(s);
    DeliveryPasses(s);
    F.AloneReported(f);
    if !CtrlFree(s) {
      EatenBytes(s);
      F.PrintIsTight(f);
      if F.Events([], x) == [f] {
        F.EventsNeed([], x, f);
        assert false;
      }
    }
  }

  // ----- any deliveries -----

  lemma RouteFree(carry: seq<byte>, data: seq<byte>)
    requires |carry| < D.CTRL && CtrlFree(carry + data)
    ensures NoCtrl(D.Route(carry, data))
  {
    var all := carry + data;
    if carry == [] {
      assert all == data;
      ScanFree(data);
    } else if |all| >= D.CTRL {
      assert !D.StartsAt(all, 0);
      assert all[0..D.CTRL] == all[..D.CTRL];
      assert all == all[..D.CTRL] + all[D.CTRL..];
      SuffixFree(all[..D.CTRL], all[D.CTRL..]);
      ScanFree(all[D.CTRL..]);
    }
  }

  lemma {:induction false} AllToFramer(carry: seq<byte>, chunks: seq<seq<byte>>)
    requires |carry| < D.CTRL && CtrlFree(carry + Flatten(chunks))
    ensures NoCtrl(D.RouteAll(carry, chunks))
    decreases |chunks|
  {
    if chunks != [] {
      var here, next := D.Route(carry, chunks[0]), D.Carried(carry, chunks[0]);
      var rest := Flatten(chunks[1..]);
      D.RouteConserves(carry, chunks[0]);
      D.RouteSound(carry, chunks[0]);
      Assoc(carry, chunks[0], rest);
      Assoc(D.Bytes(here), next, rest);
      SuffixFree(D.Bytes(here), next + rest);
      PrefixFree(carry + chunks[0], rest);
      RouteFree(carry, chunks[0]);
      AllToFramer(next, chunks[1..]);
    }
  }

  lemma PrefixFree(a: seq<byte>, b: seq<byte>)
    requires CtrlFree(a + b)
    ensures CtrlFree(a)
  {
    forall k: nat
      ensures !D.StartsAt(a, k)
    {
      if k + D.CTRL <= |a| {
        assert (a + b)[k..k + D.CTRL] == a[k..k + D.CTRL];
        assert !D.StartsAt(a + b, k);
      }
    }
  }

  /**
    From frames to bytes and back over the shared wire: a stream of printed frames in which no control frame starts,
    delivered in any pieces and handed to the framer in any pieces, is reported as exactly those frames, once the
    demultiplexer holds nothing back.
   */
  lemma FramesSurvive(fs: seq<F.FrameEvent>, chunks: seq<seq<byte>>, pieces: seq<seq<byte>>)
    requires F.AllSendable(fs) && Flatten(chunks) == F.PrintAll(fs) && CtrlFree(F.PrintAll(fs))
    requires D.CarriedAll([], chunks) == [] && Flatten(pieces) == FramerBytes(D.RouteAll([], chunks))
    ensures F.EventsOfChunks([], pieces) == fs
  {
    var s := F.PrintAll(fs);
    assert [] + s == s;
    D.NoByteLost([], chunks);
    AllToFramer([], chunks);
    FramerBytesExact(D.RouteAll([], chunks));
    assert D.Bytes(D.RouteAll([], chunks)) + [] == D.Bytes(D.RouteAll([], chunks));
    F.AnySplit([], pieces);
    F.FramesReported(fs);
  }

  // ----- a frame that does not get through -----

  /** Bytes without a zero pass through the encoder behind the open block's code byte as they are. */
  lemma {:induction false} RunCopied(run: seq<byte>, x: seq<byte>, rest: seq<byte>)
    requires C.ZeroFree(x) && |run| + |x| < C.FULL
    ensures C.EncFrom(run, x + rest) == C.EncFrom(run + x, rest)
    decreases |x|
  {
    if x == [] {
      assert x + rest == rest && run + x == run;
    } else {
      assert (x + rest)[1..] == x[1..] + rest;
      RunCopied(run + [x[0]], x[1..], rest);
      assert run + [x[0]] + x[1..] == run + x;
    }
  }

  /** The open block's run stands behind its code byte. */
  lemma {:induction false} RunStands(run: seq<byte>, src: seq<byte>)
    requires |run| < C.FULL
    ensures |C.EncFrom(run, src)| > |run| && C.EncFrom(run, src)[1..|run| + 1] == run
    decreases |src|
  {
    if src == [] || src[0] == 0 {
      var code := |run| + 1;
      BlockStands(code, run, if src == [] then [] else C.EncFrom([], src[1..]));
      assert [code] + run + [] == [code] + run;
    } else if |run| + 1 == C.FULL {
      BlockStands(0xFF, run, [src[0]] + C.EncFrom([], src[1..]));
      assert [0xFF] + (run + [src[0]]) + C.EncFrom([], src[1..]) == [0xFF] + run + ([src[0]] + C.EncFrom([], src[1..]));
    } else {
      hide C.EncFrom;
      var e := C.EncFrom(run + [src[0]], src[1..]);
      RunStands(run + [src[0]], src[1..]);
      EncContinues(run, src);
      PrefixStands(e, run, src[0]);
    }
  }

  lemma EncContinues(run: seq<byte>, src: seq<byte>)
    requires |run| + 1 < C.FULL && src != [] && src[0] != 0
    ensures C.EncFrom(run, src) == C.EncFrom(run + [src[0]], src[1..])
  {
  }

  lemma BlockStands(code: byte, run: seq<byte>, rest: seq<byte>)
    ensures ([code] + run + rest)[1..|run| + 1] == run
  {
  }

  lemma PrefixStands(e: seq<byte>, run: seq<byte>, b: byte)
    requires |e| > |run| + 1 && e[1..|run| + 2] == run + [b]
    ensures e[1..|run| + 1] == run
  {
    assert e[1..|run| + 1] == e[1..|run| + 2][..|run|];
  }

  /** What stands behind the code byte stands two places later in the frame. */
  lemma BehindDelimiter(e: seq<byte>, q: byte, p: seq<byte>)
    requires |e| > |p| + 1 && e[1..|p| + 2] == [q] + p
    ensures ([0] + e + [0])[3..|p| + 3] == p
  {
    var w := [0] + e + [0];
    forall i | 0 <= i < |p|
      ensures w[3..|p| + 3][i] == p[i]
    {
      assert w[3 + i] == e[2 + i] == e[1..|p| + 2][i + 1] == ([q] + p)[i + 1];
    }
  }

  /** A short payload without zeros stands in its frame as it is, from the third byte on. */
  lemma PayloadStands(q: byte, p: seq<byte>)
    requires 1 <= q <= SEQ_MAX && C.ZeroFree(p) && |p| <= 250
    ensures var w := F.Print(F.Payload(q, p));
      |w| > |p| + 3 && w[3..|p| + 3] == p
  {
    hide C.EncFrom, Crc.Crc8;
    var x, tail := [q] + p, [Crc.Crc8([q] + p)];
    RunCopied([], x, tail);
    assert [] + x == x;
    RunStands(x, tail);
    BehindDelimiter(C.Enc(x + tail), q, p);
  }

  /** Such frames exist: the five payload bytes 0xAA 0x55 0x01 0x01 0x95 in a chunk of their own. */
  lemma PatternFrameIsEaten(q: byte)
    requires 1 <= q <= SEQ_MAX
    ensures var f := F.Payload(q, [0xAA, 0x55, 1, 1, 0x95]);
      var s := F.Print(f);
      && F.Sendable(f) && FramerBytes(D.Scan(s)) + D.Tail(s) != s
      && F.Events([], FramerBytes(D.Scan(s)) + D.Tail(s)) != [f]
  {
    hide D.Scan, D.Tail, FramerBytes, F.Print, F.Events, Crc.Crc8;
    var p: seq<byte> := [0xAA, 0x55, 1, 1, 0x95];
    var w := F.Print(F.Payload(q, p));
    PayloadStands(q, p);
    Crc.PatternCrc();
    assert p[..4] == [0xAA, 0x55, 1, 1];
    assert D.StartsAt(w, 3);
    DeliveryPasses(w);
    FrameArrives(F.Payload(q, p));
  }

  // ----- a frame that arrives as another -----

  const PATTERN: seq<byte> := [0xAA, 0x55, 1, 1, 0x95]

  /** A chunk that holds the pattern, and the chunk it is taken for. */
  const SENT_CHUNK: seq<byte> := [12] + PATTERN + [0, 1, 1, 1]
  const TAKEN_CHUNK: seq<byte> := [12, 5, 1, 1, 1]

  /** Two blocks, closed by the zero between them. */
  lemma EncTwoBlocks(x: seq<byte>, y: seq<byte>)
    requires C.ZeroFree(x) && C.ZeroFree(y) && |x| < C.FULL && |y| < C.FULL
    ensures C.Enc(x + [0] + y) == [|x| + 1] + x + ([|y| + 1] + y)
  {
    assert x + [0] + y == x + ([0] + y) && ([0] + y)[1..] == y;
    RunCopied([], x, [0] + y);
    EncOneBlock(y);
    assert [] + x == x;
  }

  lemma EncOneBlock(x: seq<byte>)
    requires C.ZeroFree(x) && |x| < C.FULL
    ensures C.Enc(x) == [|x| + 1] + x
  {
    RunCopied([], x, []);
    assert x + [] == x && [] + x == x;
  }

  lemma SentFrame()
    ensures F.Print(F.Payload(1, SENT_CHUNK)) == [0, 8, 1, 12] + (PATTERN + [5, 1, 1, 1, 0x88, 0])
  {
    hide Crc.Crc8, C.EncFrom;
    Crc.AlteredCrc();
    var d := F.WithCrc([1] + SENT_CHUNK);
    assert [1] + SENT_CHUNK == [1, 12, 0xAA, 0x55, 1, 1, 0x95, 0, 1, 1, 1];
    assert d == ([1, 12] + PATTERN) + [0] + [1, 1, 1, 0x88];
    EncTwoBlocks([1, 12] + PATTERN, [1, 1, 1, 0x88]);
  }

  lemma TakenFrame()
    ensures F.Print(F.Payload(1, TAKEN_CHUNK)) == [0, 8, 1, 12] + [5, 1, 1, 1, 0x88, 0]
  {
    hide Crc.Crc8, C.EncFrom;
    Crc.AlteredCrc();
    var d := F.WithCrc([1] + TAKEN_CHUNK);
    assert [1] + TAKEN_CHUNK == [1, 12, 5, 1, 1, 1];
    assert d == [1, 12, 5, 1, 1, 1, 0x88];
    EncOneBlock([1, 12, 5, 1, 1, 1, 0x88]);
  }

  lemma {:induction false} FramerBytesOfItems(x: seq<byte>, rest: seq<D.Item>)
    ensures FramerBytes(D.Items(x) + rest) == x + FramerBytes(rest)
  {
    if x == [] {
      assert D.Items(x) + rest == rest;
    } else {
      var items := D.Items(x) + rest;
      assert items[0] == D.ToFramer(x[0]) && items[1..] == D.Items(x[1..]) + rest;
      FramerBytesOfItems(x[1..], rest);
      assert [x[0]] + (x[1..] + FramerBytes(rest)) == x + FramerBytes(rest);
    }
  }

  /** Bytes without a 0xAA, then a control frame, then bytes without a 0xAA: only the control frame is taken out. */
  lemma CtrlTakenOut(x: seq<byte>, c: seq<byte>, y: seq<byte>)
    requires D.IsCtrl(c) && 0xAA !in x && 0xAA !in y
    ensures FramerBytes(D.Scan(x + (c + y))) == x + y && D.Tail(x + (c + y)) == []
  {
    hide D.Scan, D.Tail, FramerBytes, D.Items;
    var s := x + (c + y);
    NoCatch(x, c + y);
    D.ScanPasses(s, |x|);
    assert s[..|x|] == x && s[|x|..] == c + y;
    D.ScanCtrl(c, y);
    NoCatch(y, []);
    assert y + [] == y && y[..|y|] == y && y[|y|..] == [];
    D.ScanPasses(y, |y|);
    NothingScanned();
    FramerBytesOfItems(y, []);
    assert D.Items(y) + [] == D.Items(y);
    CtrlSkipped(c, D.Items(y));
    FramerBytesOfItems(x, [D.Ctrl(c)] + D.Items(y));
  }

  lemma NoCatch(x: seq<byte>, rest: seq<byte>)
    requires 0xAA !in x
    ensures forall j :: 0 <= j < |x| ==> !D.Catches(x + rest, j)
  {
    forall j | 0 <= j < |x|
      ensures !D.Catches(x + rest, j)
    {
      assert (x + rest)[j] == x[j] && (x + rest)[j..][0] == x[j];
    }
  }

  lemma NothingScanned()
    ensures D.Scan([]) == [] && D.Tail([]) == [] && FramerBytes([]) == []
  {
  }

  lemma CtrlSkipped(c: seq<byte>, rest: seq<D.Item>)
    ensures FramerBytes([D.Ctrl(c)] + rest) == FramerBytes(rest)
  {
    assert ([D.Ctrl(c)] + rest)[1..] == rest;
  }

  /**
    What is left of a data frame may be another frame with a good checksum: this chunk of ten bytes is reported as one
    of five, under the same sequence, though nothing on the wire was lost or changed.
   */
  lemma PatternFrameArrivesAltered()
    ensures var s := F.Print(F.Payload(1, SENT_CHUNK));
      && F.Events([], FramerBytes(D.Scan(s))) == [F.Payload(1, TAKEN_CHUNK)]
      && F.After([], FramerBytes(D.Scan(s))) == [] && D.Tail(s) == [] && !CtrlFree(s)
  {
    hide D.Scan, D.Tail, FramerBytes, F.Print, F.Events, F.After, Crc.Crc8;
    SentFrame();
    TakenFrame();
    Crc.PatternCrc();
    assert PATTERN[..4] == [0xAA, 0x55, 1, 1];
    CtrlTakenOut([0, 8, 1, 12], PATTERN, [5, 1, 1, 1, 0x88, 0]);
    F.AloneReported(F.Payload(1, TAKEN_CHUNK));
    FrameArrives(F.Payload(1, SENT_CHUNK));
    var t := F.Print(F.Payload(1, TAKEN_CHUNK));
    assert t + [] == t;
  }
}
