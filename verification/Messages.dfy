/**
  The message layer over the in-order byte stream: a 6-byte header (length and CRC-16, little endian), the
  chunks a message is sent as, and the cursor that cuts messages back out of the app buffer.
 */
module Messages {
  import opened Wire
  import opened Crc

  // ----- header -----

  function HdrEncode(len: uint32, crc: uint16): (h: seq<byte>)
    ensures |h| == MSG_HDR
  {
    Bytes4(len) + Bytes2(crc)
  }

  function HdrLen(h: seq<byte>): uint32
    requires |h| == MSG_HDR
  {
    Little4Bound(h[0], h[1], h[2], h[3]);
    Little4(h[0], h[1], h[2], h[3])
  }

  function HdrCrc(h: seq<byte>): uint16
    requires |h| == MSG_HDR
  {
    Little2(h[4], h[5])
  }

  /** A header decodes to the length and checksum it was made from. */
  lemma HdrDecodesEncode(len: uint32, crc: uint16)
    ensures HdrLen(HdrEncode(len, crc)) == len && HdrCrc(HdrEncode(len, crc)) == crc
  {
    DigitsMake(len);
  }

  /** Every 6 bytes are the header of the length and checksum read from them. */
  lemma HdrEncodesDecode(h: seq<byte>)
    requires |h| == MSG_HDR
    ensures HdrEncode(HdrLen(h), HdrCrc(h)) == h
  {
    Little4Digits(h[0], h[1], h[2], h[3]);
    DigitsOf(HdrCrc(h), h[4], h[5]);
  }

  /** The six bytes: the length, least significant byte first, and the checksum likewise. */
  lemma HeaderLayout(len: uint32, crc: uint16)
    ensures var h := HdrEncode(len, crc);
      && h[0] as int + 0x100 * h[1] as int + 0x1_0000 * h[2] as int + 0x100_0000 * h[3] as int == len
      && h[4] as int + 0x100 * h[5] as int == crc
  {
    HdrDecodesEncode(len, crc);
  }

  // ----- a message on the wire -----

  /** What the application may send: not empty, and short enough for the 32-bit length field. */
  predicate Sendable(m: seq<byte>) {
    1 <= |m| < 0x8000_0000
  }

  function Header(m: seq<byte>): (h: seq<byte>)
    requires Sendable(m)
    ensures |h| == MSG_HDR
  {
    HdrEncode(|m|, Crc16(m))
  }

  function Encode(m: seq<byte>): seq<byte>
    requires Sendable(m)
  {
    Header(m) + m
  }

  /** Full chunks and a last, shorter one. */
  function Split(b: seq<byte>): seq<seq<byte>> {
    if b == [] then []
    else if |b| <= MAX_CHUNK then [b]
    else [b[..MAX_CHUNK]] + Split(b[MAX_CHUNK..])
  }

  /** A message that fits one chunk with its header travels in one; a longer one sends the header alone first. */
  function Chunks(m: seq<byte>): seq<seq<byte>>
    requires Sendable(m)
  {
    if |m| + MSG_HDR <= MAX_CHUNK then [Encode(m)] else [Header(m)] + Split(m)
  }

  function ChunksForMsgLen(len: int): int {
    if len <= 0 then 0
    else if len + MSG_HDR <= MAX_CHUNK then 1
    else 1 + (len + MAX_CHUNK - 1) / MAX_CHUNK
  }

  function MaxLenForChunkBudget(budget: int): int {
    if budget <= 0 then 0
    else if budget == 1 then MAX_CHUNK - MSG_HDR
    else (budget - 1) * MAX_CHUNK
  }

  ghost predicate ChunkSized(cs: seq<seq<byte>>) {
    forall i :: 0 <= i < |cs| ==> 1 <= |cs[i]| <= MAX_CHUNK
  }

  lemma {:induction false} SplitCarries(b: seq<byte>)
    ensures Flatten(Split(b)) == b
    ensures ChunkSized(Split(b))
    ensures |Split(b)| == (|b| + MAX_CHUNK - 1) / MAX_CHUNK
  {
    if b == [] {
    } else if |b| <= MAX_CHUNK {
      assert Flatten([b]) == b + Flatten([b][1..]);
    } else {
      var rest := b[MAX_CHUNK..];
      SplitCarries(rest);
      assert Split(b)[1..] == Split(rest);
      assert b == b[..MAX_CHUNK] + rest;
    }
  }

  /** The chunks of a message carry exactly its encoding, none empty or oversize, as many as announced. */
  lemma ChunksCarry(m: seq<byte>)
    requires Sendable(m)
    ensures Flatten(Chunks(m)) == Encode(m)
    ensures ChunkSized(Chunks(m))
    ensures |Chunks(m)| == ChunksForMsgLen(|m|) >= 1
  {
    if |m| + MSG_HDR <= MAX_CHUNK {
      assert Flatten([Encode(m)]) == Encode(m) + Flatten([Encode(m)][1..]);
    } else {
      SplitCarries(m);
      assert Chunks(m)[1..] == Split(m);
    }
  }

  /** The inverse sizing: a message fits a chunk budget exactly when it is no longer than the announced maximum. */
  lemma ChunkBudgetExact(len: int, budget: int)
    requires len >= 1
    ensures ChunksForMsgLen(len) <= budget <==> len <= MaxLenForChunkBudget(budget)
  {
    if len + MSG_HDR > MAX_CHUNK && budget >= 2 {
      var n := (len + MAX_CHUNK - 1) / MAX_CHUNK;
      if len <= (budget - 1) * MAX_CHUNK {
        assert n <= budget - 1;
      } else {
        assert n >= budget;
      }
    }
  }

  /** Every body chunk but the last is full: chunk `i` starts at byte 250 * i. */
  lemma {:induction false} SplitAt(b: seq<byte>, i: nat)
    requires i < |Split(b)|
    ensures i * MAX_CHUNK < |b|
    ensures Split(b)[i] == b[i * MAX_CHUNK..if |b| - i * MAX_CHUNK < MAX_CHUNK then |b| else (i + 1) * MAX_CHUNK]
    ensures i + 1 == |Split(b)| <==> |b| <= (i + 1) * MAX_CHUNK
  {
    if |b| > MAX_CHUNK {
      var rest := b[MAX_CHUNK..];
      assert Split(b) == [b[..MAX_CHUNK]] + Split(rest);
      if i == 0 {
        assert |Split(rest)| > 0;
      } else {
        SplitAt(rest, i - 1);
        assert Split(b)[i] == Split(rest)[i - 1];
      }
    }
  }

  /** The chunks before it carry what precedes. */
  lemma {:induction false} SplitBefore(b: seq<byte>, i: nat)
    requires i < |Split(b)| && i * MAX_CHUNK < |b|
    ensures Flatten(Split(b)[..i]) == b[..i * MAX_CHUNK]
  {
    if i == 0 {
      assert Split(b)[..0] == [];
    } else {
      SplitAt(b, i);
      var first, rest := b[..MAX_CHUNK], b[MAX_CHUNK..];
      SplitBefore(rest, i - 1);
      assert Split(b)[..i] == [first] + Split(rest)[..i - 1];
      FlattenAppend([first], Split(rest)[..i - 1]);
      assert Flatten([first]) == first + Flatten([first][1..]);
      assert b[..i * MAX_CHUNK] == first + rest[..(i - 1) * MAX_CHUNK];
    }
  }

  // ----- resynchronisation -----

  /** A header at offset `d` whose length is in bounds and whose CRC matches the bytes behind it. */
  predicate Plausible(b: seq<byte>, d: nat, maxMsg: nat) {
    && d + MSG_HDR <= |b|
    && var h := b[d..d + MSG_HDR];
       && 1 <= HdrLen(h) <= maxMsg
       && d + HdrLen(h) + MSG_HDR <= |b|
       && Crc16(b[d + MSG_HDR..d + MSG_HDR + HdrLen(h)]) == HdrCrc(h)
  }

  /** The first plausible offset from `d` on. */
  function Scan(b: seq<byte>, d: nat, maxMsg: nat): (r: Option<nat>)
    ensures r.Some? ==> d <= r.value <= |b|
    decreases |b| - d
  {
    if d + MSG_HDR > |b| then None
    else if Plausible(b, d, maxMsg) then Some(d)
    else Scan(b, d + 1, maxMsg)
  }

  /** The scan finds a plausible offset, and no offset `k` it passed was one. */
  lemma {:induction false} ScanFindsFirst(b: seq<byte>, d: nat, maxMsg: nat, k: nat)
    ensures var r := Scan(b, d, maxMsg);
      && (r.Some? ==> Plausible(b, r.value, maxMsg))
      && (d <= k && (r.Some? ==> k < r.value) ==> !Plausible(b, k, maxMsg))
    decreases |b| - d
  {
    if d + MSG_HDR <= |b| && !Plausible(b, d, maxMsg) {
      ScanFindsFirst(b, d + 1, maxMsg, k);
    }
  }

  method MsgResyncScan(b: seq<byte>, maxMsg: nat) returns (r: Option<nat>)
    ensures r == Scan(b, 0, maxMsg)
  {
    var d := 0;
    while d + MSG_HDR <= |b|
      invariant Scan(b, 0, maxMsg) == Scan(b, d, maxMsg)
      decreases |b| - d
    {
      var h := b[d..d + MSG_HDR];
      if 1 <= HdrLen(h) <= maxMsg && d + HdrLen(h) + MSG_HDR <= |b| {
        var crc := Crc16Loop(b[d + MSG_HDR..d + MSG_HDR + HdrLen(h)]);
        if crc == HdrCrc(h) {
          return Some(d);
        }
      }
      d := d + 1;
    }
    r := None;
  }

  /** The app buffer after a resync: the snapshot from the first header on goes back behind what was not scanned. */
  function Resynced(buf: seq<byte>, maxMsg: nat): seq<byte> {
    if |buf| < MSG_HDR then buf
    else
      var scan := if maxMsg + MSG_HDR < |buf| then maxMsg + MSG_HDR else |buf|;
      var snapLen := if scan + MSG_HDR > |buf| then |buf| else scan + MSG_HDR;
      match Scan(buf[..snapLen], 0, maxMsg)
      case Some(d) => buf[snapLen..] + buf[d..snapLen]
      case None => []
  }

  /**
    A buffer the scan sees whole is cut in front of its first believable header, and is given up when it has none; a
    buffer without room for a header stays.
   */
  lemma ResyncCuts(buf: seq<byte>, maxMsg: nat, k: nat)
    requires |buf| <= maxMsg + 2 * MSG_HDR
    ensures |buf| < MSG_HDR ==> Resynced(buf, maxMsg) == buf
    ensures |buf| >= MSG_HDR ==>
      var d := |buf| - |Resynced(buf, maxMsg)|;
      && d >= 0 && Resynced(buf, maxMsg) == buf[d..]
      && (Resynced(buf, maxMsg) != [] ==> Plausible(buf, d, maxMsg))
      && (k < d ==> !Plausible(buf, k, maxMsg))
  {
    hide Plausible, Scan;
    if |buf| >= MSG_HDR {
      ScanFindsFirst(buf, 0, maxMsg, k);
      SeenWhole(buf, maxMsg);
    }
  }

  lemma SeenWhole(buf: seq<byte>, maxMsg: nat)
    requires MSG_HDR <= |buf| <= maxMsg + 2 * MSG_HDR
    ensures Resynced(buf, maxMsg) == match Scan(buf, 0, maxMsg) { case Some(d) => buf[d..] case None => [] }
  {
    hide Plausible, Scan;
    assert buf[..|buf|] == buf;
  }

  /** In a longer buffer only the first `maxMsg` + 12 bytes are seen, and what is kept of them goes behind the rest. */
  lemma ResyncOfLong(buf: seq<byte>, maxMsg: nat, k: nat)
    requires |buf| > maxMsg + 2 * MSG_HDR
    ensures var seen, rest := buf[..maxMsg + 2 * MSG_HDR], buf[maxMsg + 2 * MSG_HDR..];
      var r := Resynced(buf, maxMsg);
      var d := |buf| - |r|;
      && (r == [] ==> !Plausible(seen, k, maxMsg))
      && (r != [] ==> 0 <= d <= |seen| && r == rest + seen[d..] && Plausible(seen, d, maxMsg)
                      && (k < d ==> !Plausible(seen, k, maxMsg)))
  {
    hide Plausible, Scan;
    ScanFindsFirst(buf[..maxMsg + 2 * MSG_HDR], 0, maxMsg, k);
  }

  /** A whole message, `zeros` to fill what the scan sees, and one byte more. */
  function Overlong(zeros: seq<byte>): seq<byte> { HdrEncode(1, Crc16([7])) + ([7] + zeros) + [9] }

  /** So the order of the bytes is lost there: this buffer begins with a whole message, and comes back with a byte before it. */
  lemma ResyncReorders()
    ensures var buf := Overlong([0, 0, 0, 0, 0, 0]);
      Plausible(buf, 0, 1) && Resynced(buf, 1) == [9] + buf[..13] && Resynced(buf, 1) != buf
  {
    hide Crc16, HdrEncode, Plausible;
    var z: seq<byte> := [0, 0, 0, 0, 0, 0];
    var h, buf := HdrEncode(1, Crc16([7])), Overlong(z);
    FrontIsMessage([7], z + [9]);
    FrontIsMessage([7], z);
    assert buf == h + ([7] + (z + [9])) && buf[..13] == h + ([7] + z) && buf[13..] == [9];
    assert buf[..13][0..] == buf[..13];
    HeaderLayout(1, Crc16([7]));
    FirstDiffers(h);
    assert buf[0] == h[0];
  }

  lemma FirstDiffers(h: seq<byte>)
    requires |h| == MSG_HDR && h[0] as int + 0x100 * h[1] as int + 0x1_0000 * h[2] as int + 0x100_0000 * h[3] as int == 1
    ensures h[0] != 9
  {
  }

  lemma FrontIsMessage(m: seq<byte>, rest: seq<byte>)
    requires |m| == 1
    ensures Plausible(HdrEncode(1, Crc16(m)) + (m + rest), 0, 1)
  {
    hide Crc16;
    var b := HdrEncode(1, Crc16(m)) + (m + rest);
    HdrDecodesEncode(1, Crc16(m));
    assert b[0..MSG_HDR] == HdrEncode(1, Crc16(m)) && b[MSG_HDR..MSG_HDR + 1] == m;
  }

  // ----- receiving -----

  datatype Cursor = Between | In(len: nat, crc: uint16)

  datatype RecvResult = Nothing | Got(msg: seq<byte>) | Rejected

  /** Reads a header when between messages; `None` when the header is not believable. */
  function Begin(c: Cursor, buf: seq<byte>, maxMsg: nat): Option<(Cursor, seq<byte>)> {
    if c.In? || |buf| < MSG_HDR then Some((c, buf))
    else
      var h := buf[..MSG_HDR];
      if HdrLen(h) == 0 || HdrLen(h) > maxMsg then None
      else Some((In(HdrLen(h), HdrCrc(h)), buf[MSG_HDR..]))
  }

  /** Takes the body of the message in progress once all of it has arrived. */
  function Finish(c: Cursor, buf: seq<byte>, maxLen: nat): (Cursor, seq<byte>, RecvResult) {
    if c.Between? || |buf| < c.len then (c, buf, Nothing)
    else if c.len > maxLen then (Between, buf[c.len..], Rejected)
    else (Between, buf[c.len..], if Crc16(buf[..c.len]) == c.crc then Got(buf[..c.len]) else Rejected)
  }

  /** One `recvMsg` call on a session whose partial message, if any, is not stale. */
  function Recv(c: Cursor, buf: seq<byte>, maxMsg: nat, maxLen: nat): (Cursor, seq<byte>, RecvResult) {
    match Begin(c, buf, maxMsg)
    case None => (Between, Resynced(buf[MSG_HDR..], maxMsg), Rejected)
    case Some((c', buf')) => Finish(c', buf', maxLen)
  }

  // ----- what a receive call turns away -----

  /** Fewer than six bytes between messages, or less than the whole body, and the call gives nothing and takes nothing. */
  lemma RecvWaits(c: Cursor, buf: seq<byte>, maxMsg: nat, maxLen: nat)
    requires if c.Between? then |buf| < MSG_HDR else |buf| < c.len
    ensures Recv(c, buf, maxMsg, maxLen) == (c, buf, Nothing)
  {
  }

  /** A header that announces nothing, or more than a message may hold, is rejected and the buffer behind it rescanned. */
  lemma BadHeaderRejected(buf: seq<byte>, maxMsg: nat, maxLen: nat)
    requires |buf| >= MSG_HDR
    ensures var len := HdrLen(buf[..MSG_HDR]);
      (len == 0 || len > maxMsg) ==>
        Recv(Between, buf, maxMsg, maxLen) == (Between, Resynced(buf[MSG_HDR..], maxMsg), Rejected)
  {
  }

  /** A body that has all come is given out when it fits the caller and matches its checksum, and is thrown away otherwise. */
  lemma BodyChecked(c: Cursor, buf: seq<byte>, maxMsg: nat, maxLen: nat)
    requires c.In? && |buf| >= c.len
    ensures var (c', rest, r) := Recv(c, buf, maxMsg, maxLen);
      && c' == Between && rest == buf[c.len..] && r != Nothing
      && (r == Got(buf[..c.len]) <==> c.len <= maxLen && Crc16(buf[..c.len]) == c.crc)
      && (r == Rejected <==> c.len > maxLen || Crc16(buf[..c.len]) != c.crc)
  {
  }
}
