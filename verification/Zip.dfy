/**
  The streaming reader of stored zip archives (section 4.3.7 of PKWARE's APPNOTE 6.3): local file headers with
  their names, extra fields and data, up to the central directory. The sinks accept what they are given; which
  entries are wanted is up to the application.
 */
module Zip {
  import opened Wire

  const NAME_MAX: int := 96
  const HDR_SIZE: int := 26
  const LOCAL_SIG: int := 0x04034b50
  const CENTRAL_SIG: int := 0x02014b50
  const EOCD_SIG: int := 0x06054b50

  datatype Reason = BadSignature | Compressed | DataDescriptor | BadName

  /** What has been collected of the part being read. */
  datatype Z =
    | Sig(acc: seq<byte>)
    | Hdr(acc: seq<byte>)
    | Name(hdr: seq<byte>, acc: seq<byte>)
    | Extra(hdr: seq<byte>, name: seq<byte>, got: nat)
    | Data(left: nat)
    | Skip(left: nat)
    | Done
    | Err(reason: Reason)

  /** What the sinks are told; a block of data counts byte by byte. */
  datatype Told = Entry(name: seq<byte>, size: uint32) | Byte(b: byte) | End

  /** Which entries the application takes, by name and size. */
  type Wants = (seq<byte>, uint32) -> bool

  // ----- header fields -----

  function Rd16(h: seq<byte>, i: nat): (n: int)
    requires i + 2 <= |h|
    ensures 0 <= n < 0x1_0000
  {
    Little2(h[i], h[i + 1])
  }

  function Rd32(h: seq<byte>, i: nat): uint32
    requires i + 4 <= |h|
  {
    Little4Bound(h[i], h[i + 1], h[i + 2], h[i + 3]);
    Little4(h[i], h[i + 1], h[i + 2], h[i + 3])
  }

  function NameLen(h: seq<byte>): int
    requires |h| == HDR_SIZE
  {
    Rd16(h, 22)
  }

  function ExtraLen(h: seq<byte>): int
    requires |h| == HDR_SIZE
  {
    Rd16(h, 24)
  }

  /** Why a local header is refused, if it is. */
  function HdrFault(h: seq<byte>): Option<Reason>
    requires |h| == HDR_SIZE
  {
    if Rd16(h, 4) != 0 then Some(Compressed)
    else if Rd16(h, 2) / 8 % 2 == 1 then Some(DataDescriptor)
    else if NameLen(h) == 0 || NameLen(h) > NAME_MAX then Some(BadName)
    else None
  }

  predicate Valid(z: Z) {
    match z
    case Sig(acc) => |acc| < 4
    case Hdr(acc) => |acc| < HDR_SIZE
    case Name(h, acc) => |h| == HDR_SIZE && HdrFault(h).None? && |acc| < NameLen(h)
    case Extra(h, name, got) =>
      |h| == HDR_SIZE && HdrFault(h).None? && |name| == NameLen(h) && got <= ExtraLen(h)
    case _ => true
  }

  // ----- one byte -----

  /** The entry is announced; its data follow, for the sinks or to be skipped. */
  function Enter(wants: Wants, h: seq<byte>, name: seq<byte>): Z
    requires |h| == HDR_SIZE
  {
    if wants(name, Rd32(h, 18)) then Data(Rd32(h, 14)) else Skip(Rd32(h, 14))
  }

  /** What happens as soon as one more byte is there, before it is looked at. */
  function Open(wants: Wants, z: Z): (r: Z)
    requires Valid(z)
    ensures Valid(r)
    decreases z.Extra?
  {
    match z
    case Extra(h, name, got) => if got == ExtraLen(h) then Open(wants, Enter(wants, h, name)) else z
    case Data(left) => if left == 0 then Sig([]) else z
    case Skip(left) => if left == 0 then Sig([]) else z
    case _ => z
  }

  function OpenTells(wants: Wants, z: Z): seq<Told>
    requires Valid(z)
    decreases z.Extra?
  {
    match z
    case Extra(h, name, got) =>
      if got == ExtraLen(h) then [Entry(name, Rd32(h, 18))] + OpenTells(wants, Enter(wants, h, name)) else []
    case Data(left) => if left == 0 then [End] else []
    case _ => []
  }

  function Consume(wants: Wants, z: Z, b: byte): (r: Z)
    requires Valid(z) && Open(wants, z) == z
    ensures Valid(r)
  {
    match z
    case Sig(acc) =>
      var s := acc + [b];
      if |s| < 4 then Sig(s)
      else if Rd32(s, 0) == CENTRAL_SIG || Rd32(s, 0) == EOCD_SIG then Done
      else if Rd32(s, 0) != LOCAL_SIG then Err(BadSignature)
      else Hdr([])
    case Hdr(acc) =>
      var h := acc + [b];
      if |h| < HDR_SIZE then Hdr(h) else if HdrFault(h).Some? then Err(HdrFault(h).value) else Name(h, [])
    case Name(h, acc) => if |acc| + 1 < NameLen(h) then Name(h, acc + [b]) else Extra(h, acc + [b], 0)
    case Extra(h, name, got) =>
      if got + 1 < ExtraLen(h) then Extra(h, name, got + 1) else Enter(wants, h, name)
    case Data(left) => Data(left - 1)
    case Skip(left) => Skip(left - 1)
    case _ => z
  }

  function ConsumeTells(z: Z, b: byte): seq<Told>
    requires Valid(z)
  {
    match z
    case Extra(h, name, got) => if got + 1 < ExtraLen(h) then [] else [Entry(name, Rd32(h, 18))]
    case Data(_) => [Byte(b)]
    case _ => []
  }

  // ----- a delivery -----

  lemma OpenTwice(wants: Wants, z: Z)
    requires Valid(z)
    ensures Open(wants, Open(wants, z)) == Open(wants, z) && OpenTells(wants, Open(wants, z)) == []
  {
  }

  /** The state after a delivery; a delivered entry of no more bytes is closed even at its very end. */
  function After(wants: Wants, z: Z, s: seq<byte>): (r: Z)
    requires Valid(z)
    ensures Valid(r)
    decreases |s|
  {
    if s == [] then (if z.Data? then Open(wants, z) else z)
    else
      OpenTwice(wants, z);
      After(wants, Consume(wants, Open(wants, z), s[0]), s[1..])
  }

  /** What the sinks are told during it. */
  function Tells(wants: Wants, z: Z, s: seq<byte>): seq<Told>
    requires Valid(z)
    decreases |s|
  {
    if s == [] then (if z.Data? then OpenTells(wants, z) else [])
    else
      OpenTwice(wants, z);
      var o := Open(wants, z);
      OpenTells(wants, z) + (ConsumeTells(o, s[0]) + Tells(wants, Consume(wants, o, s[0]), s[1..]))
  }

  /** What opening does now it does not do again: with a byte to come, it may happen early. */
  lemma OpenEarly(wants: Wants, z: Z, s: seq<byte>)
    requires Valid(z) && s != []
    ensures After(wants, z, s) == After(wants, Open(wants, z), s)
    ensures Tells(wants, z, s) == OpenTells(wants, z) + Tells(wants, Open(wants, z), s)
  {
    OpenTwice(wants, z);
  }

  /** Any split of the input: the same final state, and the same entries, data and ends told. */
  lemma {:induction false} FeedSplit(wants: Wants, z: Z, x: seq<byte>, y: seq<byte>)
    requires Valid(z)
    ensures After(wants, z, x + y) == After(wants, After(wants, z, x), y)
    ensures Tells(wants, z, x + y) == Tells(wants, z, x) + Tells(wants, After(wants, z, x), y)
    decreases |x|
  {
    if x == [] {
      assert x + y == y;
      if z.Data? {
        if y != [] { OpenEarly(wants, z, y); }
      }
    } else {
      assert (x + y)[1..] == x[1..] + y;
      OpenTwice(wants, z);
      var o := Open(wants, z);
      var c := Consume(wants, o, x[0]);
      FeedSplit(wants, c, x[1..], y);
      Assoc(ConsumeTells(o, x[0]), Tells(wants, c, x[1..]), Tells(wants, After(wants, c, x[1..]), y));
      Assoc(OpenTells(wants, z), ConsumeTells(o, x[0]) + Tells(wants, c, x[1..]), Tells(wants, After(wants, c, x[1..]), y));
    }
  }

  // ----- printing -----

  /** An entry as an archiver stores it; `stamp` is time, date and CRC-32, which the reader ignores. */
  datatype ZipEntry = ZipEntry(version: uint16, flags: uint16, stamp: seq<byte>, name: seq<byte>, extra: seq<byte>,
                               data: seq<byte>)

  predicate Printable(e: ZipEntry) {
    && e.flags / 8 % 2 == 0 && |e.stamp| == 8
    && 1 <= |e.name| <= NAME_MAX && |e.extra| < 0x1_0000 && |e.data| < 0x1_0000_0000
  }

  function PrintHdr(e: ZipEntry): (h: seq<byte>)
    requires Printable(e)
    ensures |h| == HDR_SIZE
  {
    Bytes2(e.version) + Bytes2(e.flags) + [0, 0] + e.stamp
      + Bytes4(|e.data|) + Bytes4(|e.data|) + Bytes2(|e.name|) + Bytes2(|e.extra|)
  }

  function PrintEntry(e: ZipEntry): seq<byte>
    requires Printable(e)
  {
    Bytes4(LOCAL_SIG) + (PrintHdr(e) + (e.name + (e.extra + e.data)))
  }

  /** A printed header reads back as an acceptable one, with the entry's own lengths. */
  lemma HdrReadsBack(e: ZipEntry)
    requires Printable(e)
    ensures var h := PrintHdr(e);
      && HdrFault(h).None? && NameLen(h) == |e.name| && ExtraLen(h) == |e.extra|
      && Rd32(h, 14) == |e.data| && Rd32(h, 18) == |e.data|
  {
    hide Rd16, Rd32, Bytes2, Bytes4;
    var h := PrintHdr(e);
    HdrParts(e);
    TwoAt(h, 2, e.flags);
    TwoAt(h, 4, 0);
    TwoAt(h, 22, |e.name|);
    TwoAt(h, 24, |e.extra|);
    FourAt(h, 14, |e.data|);
    FourAt(h, 18, |e.data|);
  }

  /** Where the fields of a printed header lie. */
  lemma HdrParts(e: ZipEntry)
    requires Printable(e)
    ensures var h := PrintHdr(e);
      && |h| == 26 && h[2..4] == Bytes2(e.flags) && h[4..6] == Bytes2(0)
      && h[14..18] == h[18..22] == Bytes4(|e.data|)
      && h[22..24] == Bytes2(|e.name|) && h[24..26] == Bytes2(|e.extra|)
  {
  }

  lemma TwoAt(h: seq<byte>, i: nat, n: uint16)
    requires i + 2 <= |h| && h[i..i + 2] == Bytes2(n)
    ensures Rd16(h, i) == n
  {
    var s := h[i..i + 2];
    assert h[i] == s[0] && h[i + 1] == s[1];
  }

  lemma FourAt(h: seq<byte>, i: nat, n: uint32)
    requires i + 4 <= |h| && h[i..i + 4] == Bytes4(n)
    ensures Rd32(h, i) == n
  {
    DigitsMake(n);
    var s := h[i..i + 4];
    assert h[i] == s[0] && h[i + 1] == s[1] && h[i + 2] == s[2] && h[i + 3] == s[3];
  }

  // ----- parsing what was printed -----

  /** One byte of a part being read, with more to come. */
  lemma Reads(wants: Wants, z: Z, b: byte, r: seq<byte>)
    requires Valid(z) && Open(wants, z) == z && OpenTells(wants, z) == []
    ensures After(wants, z, [b] + r) == After(wants, Consume(wants, z, b), r)
    ensures Tells(wants, z, [b] + r) == ConsumeTells(z, b) + Tells(wants, Consume(wants, z, b), r)
  {
    assert ([b] + r)[1..] == r;
  }

  /** Likewise, when nobody is told of it. */
  lemma ReadsQuietly(wants: Wants, z: Z, b: byte, r: seq<byte>)
    requires Valid(z) && Open(wants, z) == z && OpenTells(wants, z) == [] && ConsumeTells(z, b) == []
    ensures After(wants, z, [b] + r) == After(wants, Consume(wants, z, b), r)
    ensures Tells(wants, z, [b] + r) == Tells(wants, Consume(wants, z, b), r)
  {
    hide After, Tells;
    Reads(wants, z, b, r);
    assert [] + Tells(wants, Consume(wants, z, b), r) == Tells(wants, Consume(wants, z, b), r);
  }

  /** What four signature bytes lead to. */
  function SigEnd(sig: uint32): Z {
    if sig == CENTRAL_SIG || sig == EOCD_SIG then Done else if sig != LOCAL_SIG then Err(BadSignature) else Hdr([])
  }

  lemma ReadSig(wants: Wants, sig: uint32, r: seq<byte>)
    ensures Valid(SigEnd(sig))
    ensures After(wants, Sig([]), Bytes4(sig) + r) == After(wants, SigEnd(sig), r)
    ensures Tells(wants, Sig([]), Bytes4(sig) + r) == Tells(wants, SigEnd(sig), r)
  {
    hide After, Tells;
    var s := Bytes4(sig);
    var a, b, c, d := s[0], s[1], s[2], s[3];
    ReadsQuietly(wants, Sig([]), a, [b] + ([c] + ([d] + r)));
    ReadsQuietly(wants, Sig([a]), b, [c] + ([d] + r));
    ReadsQuietly(wants, Sig([a, b]), c, [d] + r);
    ReadsQuietly(wants, Sig([a, b, c]), d, r);
    assert s + r == [a] + ([b] + ([c] + ([d] + r)));
    assert [] + [a] == [a] && [a] + [b] == [a, b] && [a, b] + [c] == [a, b, c];
    assert [a, b, c] + [d] == s;
    FourAt(s, 0, sig);
  }

  /** The state once all 26 header bytes are there. */
  function HdrEnd(h: seq<byte>): Z
    requires |h| == HDR_SIZE
  {
    if HdrFault(h).Some? then Err(HdrFault(h).value) else Name(h, [])
  }

  lemma {:induction false} ReadHdr(wants: Wants, acc: seq<byte>, s: seq<byte>, r: seq<byte>)
    requires s != [] && |acc| + |s| == HDR_SIZE
    ensures Valid(HdrEnd(acc + s))
    ensures After(wants, Hdr(acc), s + r) == After(wants, HdrEnd(acc + s), r)
    ensures Tells(wants, Hdr(acc), s + r) == Tells(wants, HdrEnd(acc + s), r)
    decreases |s|
  {
    hide After, Tells;
    ReadsQuietly(wants, Hdr(acc), s[0], s[1..] + r);
    assert s + r == [s[0]] + (s[1..] + r);
    if |s| == 1 {
      assert acc + s == acc + [s[0]] && s[1..] + r == r;
    } else {
      assert acc + s == (acc + [s[0]]) + s[1..];
      ReadHdr(wants, acc + [s[0]], s[1..], r);
    }
  }

  lemma {:induction false} ReadName(wants: Wants, h: seq<byte>, acc: seq<byte>, s: seq<byte>, r: seq<byte>)
    requires Valid(Name(h, acc)) && s != [] && |acc| + |s| == NameLen(h)
    ensures After(wants, Name(h, acc), s + r) == After(wants, Extra(h, acc + s, 0), r)
    ensures Tells(wants, Name(h, acc), s + r) == Tells(wants, Extra(h, acc + s, 0), r)
    decreases |s|
  {
    hide After, Tells;
    ReadsQuietly(wants, Name(h, acc), s[0], s[1..] + r);
    assert s + r == [s[0]] + (s[1..] + r);
    if |s| == 1 {
      assert acc + s == acc + [s[0]] && s[1..] + r == r;
    } else {
      assert acc + s == (acc + [s[0]]) + s[1..];
      ReadName(wants, h, acc + [s[0]], s[1..], r);
    }
  }

  lemma {:induction false} SkipExtra(wants: Wants, h: seq<byte>, name: seq<byte>, got: nat, s: seq<byte>, r: seq<byte>)
    requires Valid(Extra(h, name, got)) && got + |s| == ExtraLen(h) && (s == [] ==> r != [])
    ensures var size := Rd32(h, 18);
      && After(wants, Extra(h, name, got), s + r) == After(wants, Enter(wants, h, name), r)
      && Tells(wants, Extra(h, name, got), s + r) == [Entry(name, size)] + Tells(wants, Enter(wants, h, name), r)
    decreases |s|
  {
    hide After, Tells;
    if s == [] {
      assert s + r == r;
      OpenEarly(wants, Extra(h, name, got), r);
      OpenEarly(wants, Enter(wants, h, name), r);
      Assoc([Entry(name, Rd32(h, 18))], OpenTells(wants, Enter(wants, h, name)), Tells(wants, Open(wants, Enter(wants, h, name)), r));
    } else {
      Reads(wants, Extra(h, name, got), s[0], s[1..] + r);
      assert s + r == [s[0]] + (s[1..] + r);
      if |s| > 1 {
        SkipExtra(wants, h, name, got + 1, s[1..], r);
      } else {
        assert s[1..] + r == r;
      }
    }
  }

  /** Part of an extra field. */
  lemma {:induction false} ExtraBlock(wants: Wants, h: seq<byte>, name: seq<byte>, got: nat, s: seq<byte>, r: seq<byte>)
    requires Valid(Extra(h, name, got)) && got + |s| < ExtraLen(h)
    ensures After(wants, Extra(h, name, got), s + r) == After(wants, Extra(h, name, got + |s|), r)
    ensures Tells(wants, Extra(h, name, got), s + r) == Tells(wants, Extra(h, name, got + |s|), r)
    decreases |s|
  {
    hide After, Tells;
    if s == [] {
      assert s + r == r;
    } else {
      ReadsQuietly(wants, Extra(h, name, got), s[0], s[1..] + r);
      assert s + r == [s[0]] + (s[1..] + r);
      ExtraBlock(wants, h, name, got + 1, s[1..], r);
    }
  }

  function AsBytes(s: seq<byte>): seq<Told> {
    if s == [] then [] else [Byte(s[0])] + AsBytes(s[1..])
  }

  /** A block of an entry's data. */
  lemma {:induction false} DataBlock(wants: Wants, left: nat, s: seq<byte>, r: seq<byte>)
    requires |s| <= left
    ensures After(wants, Data(left), s + r) == After(wants, Data(left - |s|), r)
    ensures Tells(wants, Data(left), s + r) == AsBytes(s) + Tells(wants, Data(left - |s|), r)
    decreases |s|
  {
    hide After, Tells;
    if s == [] {
      assert s + r == r;
    } else {
      Reads(wants, Data(left), s[0], s[1..] + r);
      assert s + r == [s[0]] + (s[1..] + r);
      DataBlock(wants, left - 1, s[1..], r);
      Assoc([Byte(s[0])], AsBytes(s[1..]), Tells(wants, Data(left - |s|), r));
    }
  }

  lemma {:induction false} SkipBlock(wants: Wants, left: nat, s: seq<byte>, r: seq<byte>)
    requires |s| <= left
    ensures After(wants, Skip(left), s + r) == After(wants, Skip(left - |s|), r)
    ensures Tells(wants, Skip(left), s + r) == Tells(wants, Skip(left - |s|), r)
    decreases |s|
  {
    hide After, Tells;
    if s == [] {
      assert s + r == r;
    } else {
      ReadsQuietly(wants, Skip(left), s[0], s[1..] + r);
      assert s + r == [s[0]] + (s[1..] + r);
      SkipBlock(wants, left - 1, s[1..], r);
    }
  }

  /** All of an entry's data, with more of the archive behind it. */
  lemma ReadData(wants: Wants, s: seq<byte>, r: seq<byte>)
    requires r != []
    ensures After(wants, Data(|s|), s + r) == After(wants, Sig([]), r)
    ensures Tells(wants, Data(|s|), s + r) == AsBytes(s) + [End] + Tells(wants, Sig([]), r)
  {
    hide After, Tells;
    DataBlock(wants, |s|, s, r);
    OpenEarly(wants, Data(0), r);
    Assoc(AsBytes(s), [End], Tells(wants, Sig([]), r));
  }

  lemma SkipData(wants: Wants, s: seq<byte>, r: seq<byte>)
    requires r != []
    ensures After(wants, Skip(|s|), s + r) == After(wants, Sig([]), r)
    ensures Tells(wants, Skip(|s|), s + r) == Tells(wants, Sig([]), r)
  {
    hide After, Tells;
    SkipBlock(wants, |s|, s, r);
    OpenEarly(wants, Skip(0), r);
    assert [] + Tells(wants, Sig([]), r) == Tells(wants, Sig([]), r);
  }

  /** What the sinks should be told of one entry. */
  function Told1(wants: Wants, e: ZipEntry): seq<Told>
    requires Printable(e)
  {
    [Entry(e.name, |e.data|)] + (if wants(e.name, |e.data|) then AsBytes(e.data) + [End] else [])
  }

  /** Signature, header and name of a printed entry lead to its extra field. */
  lemma ReadHead(wants: Wants, e: ZipEntry, r: seq<byte>)
    requires Printable(e)
    ensures Valid(Extra(PrintHdr(e), e.name, 0))
    ensures After(wants, Sig([]), Bytes4(LOCAL_SIG) + (PrintHdr(e) + (e.name + r)))
      == After(wants, Extra(PrintHdr(e), e.name, 0), r)
    ensures Tells(wants, Sig([]), Bytes4(LOCAL_SIG) + (PrintHdr(e) + (e.name + r)))
      == Tells(wants, Extra(PrintHdr(e), e.name, 0), r)
  {
    hide After, Tells;
    var h := PrintHdr(e);
    HdrReadsBack(e);
    ReadSig(wants, LOCAL_SIG, h + (e.name + r));
    ReadHdr(wants, [], h, e.name + r);
    assert [] + h == h && [] + e.name == e.name;
    ReadName(wants, h, [], e.name, r);
  }

  /** Its extra field and data lead to the next signature. */
  lemma ReadBody(wants: Wants, e: ZipEntry, r: seq<byte>)
    requires Printable(e) && r != [] && Valid(Extra(PrintHdr(e), e.name, 0))
    ensures After(wants, Extra(PrintHdr(e), e.name, 0), e.extra + (e.data + r)) == After(wants, Sig([]), r)
    ensures Tells(wants, Extra(PrintHdr(e), e.name, 0), e.extra + (e.data + r))
      == Told1(wants, e) + Tells(wants, Sig([]), r)
  {
    hide After, Tells;
    var announced: seq<Told> := [Entry(e.name, |e.data|)];
    HdrReadsBack(e);
    SkipExtra(wants, PrintHdr(e), e.name, 0, e.extra, e.data + r);
    if wants(e.name, |e.data|) {
      ReadData(wants, e.data, r);
      Assoc(announced, AsBytes(e.data) + [End], Tells(wants, Sig([]), r));
    } else {
      SkipData(wants, e.data, r);
      assert announced + [] == announced;
    }
  }

  lemma ReadEntry(wants: Wants, e: ZipEntry, r: seq<byte>)
    requires Printable(e) && r != []
    ensures After(wants, Sig([]), PrintEntry(e) + r) == After(wants, Sig([]), r)
    ensures Tells(wants, Sig([]), PrintEntry(e) + r) == Told1(wants, e) + Tells(wants, Sig([]), r)
  {
    hide After, Tells;
    ReadHead(wants, e, e.extra + (e.data + r));
    ReadBody(wants, e, r);
    Nested(Bytes4(LOCAL_SIG), PrintHdr(e), e.name, e.extra, e.data, r);
  }

  lemma Nested(a: seq<byte>, b: seq<byte>, c: seq<byte>, d: seq<byte>, e: seq<byte>, r: seq<byte>)
    ensures (a + (b + (c + (d + e)))) + r == a + (b + (c + (d + (e + r))))
  {
    Assoc(a, b + (c + (d + e)), r);
    Assoc(b, c + (d + e), r);
    Assoc(c, d + e, r);
    Assoc(d, e, r);
  }

  ghost predicate AllPrintable(es: seq<ZipEntry>) {
    forall i :: 0 <= i < |es| ==> Printable(es[i])
  }

  /** The archive: its entries, then the signature of the central directory (or of an empty one) and anything behind it. */
  ghost function PrintArchive(es: seq<ZipEntry>, endSig: uint32, tail: seq<byte>): seq<byte>
    requires AllPrintable(es)
  {
    if es == [] then Bytes4(endSig) + tail else PrintEntry(es[0]) + PrintArchive(es[1..], endSig, tail)
  }

  ghost function ToldAll(wants: Wants, es: seq<ZipEntry>): seq<Told>
    requires AllPrintable(es)
  {
    if es == [] then [] else Told1(wants, es[0]) + ToldAll(wants, es[1..])
  }

  /**
    Print then parse: an archive of stored entries is read back as exactly those entries, the wanted ones with all
    their data, whatever follows the first central-directory signature; the reader ends up done.
   */
  lemma {:induction false} ArchiveReadsBack(wants: Wants, es: seq<ZipEntry>, endSig: uint32, tail: seq<byte>)
    requires AllPrintable(es) && (endSig == CENTRAL_SIG || endSig == EOCD_SIG)
    ensures After(wants, Sig([]), PrintArchive(es, endSig, tail)) == Done
    ensures Tells(wants, Sig([]), PrintArchive(es, endSig, tail)) == ToldAll(wants, es)
    ensures PrintArchive(es, endSig, tail) != []
  {
    hide After, Tells;
    if es == [] {
      ReadSig(wants, endSig, tail);
      Finished(wants, Done, tail);
    } else {
      ArchiveReadsBack(wants, es[1..], endSig, tail);
      ReadEntry(wants, es[0], PrintArchive(es[1..], endSig, tail));
    }
  }

  // ----- what is refused -----

  /** A header is accepted exactly when it is of a stored entry, without a data descriptor, with a name of 1 to 96 bytes. */
  lemma HeaderAccepted(h: seq<byte>)
    requires |h| == HDR_SIZE
    ensures var stored, descriptor, nameLen := h[4] == 0 && h[5] == 0, h[2] / 8 % 2 == 1, h[22] as int + 256 * h[23] as int;
      && (HdrFault(h) == None <==> stored && !descriptor && 1 <= nameLen <= 96)
      && (HdrFault(h) == Some(Compressed) <==> !stored)
      && (HdrFault(h) == Some(DataDescriptor) <==> stored && descriptor)
      && (HdrFault(h) == Some(BadName) <==> stored && !descriptor && !(1 <= nameLen <= 96))
  {
  }

  /** The data run for the size at byte 14 of the header, little endian; the application is told the one at byte 18. */
  lemma EntrySizes(wants: Wants, h: seq<byte>, name: seq<byte>)
    requires |h| == HDR_SIZE && Valid(Extra(h, name, ExtraLen(h)))
    ensures var packed, size := Little4(h[14], h[15], h[16], h[17]), Little4(h[18], h[19], h[20], h[21]);
      && 0 <= packed < 0x1_0000_0000 && 0 <= size < 0x1_0000_0000
      && Enter(wants, h, name) == (if wants(name, size) then Data(packed) else Skip(packed))
      && OpenTells(wants, Extra(h, name, ExtraLen(h)))[0] == Entry(name, size)
  {
  }

  /** The three signatures, as their bytes stand in a file. */
  lemma SignatureBytes()
    ensures Bytes4(LOCAL_SIG) == [0x50, 0x4B, 3, 4]
    ensures Bytes4(CENTRAL_SIG) == [0x50, 0x4B, 1, 2] && Bytes4(EOCD_SIG) == [0x50, 0x4B, 5, 6]
  {
  }

  /**
    Behind any number of stored entries, a header that is not accepted, or a signature that is none of the three, has the
    archive refused for good, whatever follows; the entries before it have been told, and nothing else is.
   */
  lemma {:induction false} ArchiveRefused(wants: Wants, es: seq<ZipEntry>, sig: uint32, h: seq<byte>, more: seq<byte>)
    requires AllPrintable(es) && |h| == HDR_SIZE
    requires (sig == LOCAL_SIG && HdrFault(h).Some?) || sig !in {LOCAL_SIG, CENTRAL_SIG, EOCD_SIG}
    ensures var s := PrintArchive(es, sig, h + more);
      && s != [] && After(wants, Sig([]), s) == Err(if sig == LOCAL_SIG then HdrFault(h).value else BadSignature)
      && Tells(wants, Sig([]), s) == ToldAll(wants, es)
    decreases |es|
  {
    hide After, Tells, HdrFault;
    if es == [] {
      ReadSig(wants, sig, h + more);
      if sig == LOCAL_SIG {
        ReadHdr(wants, [], h, more);
        assert [] + h == h;
        Finished(wants, Err(HdrFault(h).value), more);
      } else {
        Finished(wants, Err(BadSignature), h + more);
      }
    } else {
      ArchiveRefused(wants, es[1..], sig, h, more);
      ReadEntry(wants, es[0], PrintArchive(es[1..], sig, h + more));
    }
  }

  // ----- the streaming reader -----

  datatype St = SIG | HDR | NAME | EXTRA | DATA | SKIP | DONE | ERR

  class OtaZipStream {
    const wants: Wants
    const hdr: array<byte>
    const name: array<byte>
    var st: St
    var err: Reason
    var got: nat
    var dataLeft: uint32
    var nameLen: nat
    var extraLen: nat

    ghost predicate Shape()
      reads this
    {
      && hdr.Length == HDR_SIZE && name.Length == NAME_MAX && hdr != name
      && (st == SIG ==> got <= 4) && (st == HDR ==> got <= HDR_SIZE)
      && (st == NAME ==> got <= nameLen <= NAME_MAX) && (st == EXTRA ==> nameLen <= NAME_MAX && got <= extraLen)
    }

    ghost function View(): Z
      requires Shape()
      reads this, hdr, name
    {
      match st
      case SIG => Sig(hdr[..got])
      case HDR => Hdr(hdr[..got])
      case NAME => Name(hdr[..], name[..got])
      case EXTRA => Extra(hdr[..], name[..nameLen], got)
      case DATA => Data(dataLeft)
      case SKIP => Skip(dataLeft)
      case DONE => Done
      case ERR => Err(err)
    }

    ghost predicate Ok()
      reads this, hdr, name
    {
      && Shape() && Valid(View())
      && (st == NAME || st == EXTRA ==> nameLen == NameLen(hdr[..]) && extraLen == ExtraLen(hdr[..]))
      && (st == NAME || st == EXTRA ==> dataLeft == Rd32(hdr[..], 14))
    }

    constructor (wants: Wants)
      ensures Ok() && View() == Sig([]) && this.wants == wants && fresh(hdr) && fresh(name)
    {
      this.wants := wants;
      hdr := new byte[HDR_SIZE];
      name := new byte[NAME_MAX];
      st, err, got, dataLeft, nameLen, extraLen := SIG, BadSignature, 0, 0, 0, 0;
    }

    /** One byte into the signature; the fourth one decides. */
    method PushSig(b: byte)
      requires Ok() && st == SIG
      modifies this`st, this`err, this`got, hdr
      ensures Ok() && View() == Consume(wants, old(View()), b)
    {
      hdr[got] := b;
      got := got + 1;
      assert hdr[..got] == old(hdr[..got]) + [b];
      if got < 4 {
        return;
      }
      var sig := Rd32(hdr[..got], 0);
      if sig == CENTRAL_SIG || sig == EOCD_SIG {
        st := DONE;
      } else if sig != LOCAL_SIG {
        st, err := ERR, BadSignature;
      } else {
        st, got := HDR, 0;
      }
    }

    /** The complete header is checked and its lengths are kept. */
    method CheckHdr()
      requires Shape() && st == HDR && got == HDR_SIZE
      modifies this`st, this`err, this`got, this`dataLeft, this`nameLen, this`extraLen
      ensures Ok() && View() == HdrEnd(hdr[..])
    {
      var h := hdr[..];
      dataLeft, nameLen, extraLen := Rd32(h, 14), Rd16(h, 22), Rd16(h, 24);
      if Rd16(h, 4) != 0 {
        st, err := ERR, Compressed;
      } else if Rd16(h, 2) / 8 % 2 == 1 {
        st, err := ERR, DataDescriptor;
      } else if nameLen == 0 || nameLen > NAME_MAX {
        st, err := ERR, BadName;
      } else {
        st, got := NAME, 0;
        assert name[..0] == [];
      }
    }

    /** One byte into the header; the last one is followed by the checks. */
    method PushHdr(b: byte)
      requires Ok() && st == HDR
      modifies this`st, this`err, this`got, this`dataLeft, this`nameLen, this`extraLen, hdr
      ensures Ok() && View() == Consume(wants, old(View()), b)
    {
      hdr[got] := b;
      got := got + 1;
      assert hdr[..got] == old(hdr[..got]) + [b];
      if got == HDR_SIZE {
        assert hdr[..] == hdr[..got];
        CheckHdr();
      }
    }

    method PushName(b: byte)
      requires Ok() && st == NAME
      modifies this`st, this`got, name
      ensures Ok() && View() == Consume(wants, old(View()), b)
    {
      name[got] := b;
      got := got + 1;
      assert name[..got] == old(name[..got]) + [b];
      if got == nameLen {
        st, got := EXTRA, 0;
      }
    }

    /** The extra field is behind: the entry is announced, and its data are wanted or not. */
    method Announce() returns (told: seq<Told>)
      requires Ok() && st == EXTRA && got == extraLen
      modifies this`st, this`got
      ensures Ok() && (st == DATA || st == SKIP)
      ensures View() == Enter(wants, old(hdr[..]), old(name[..nameLen]))
      ensures told == [Entry(old(name[..nameLen]), Rd32(old(hdr[..]), 18))]
    {
      var sz := Rd32(hdr[..], 18);
      told := [Entry(name[..nameLen], sz)];
      var deliver := wants(name[..nameLen], sz);
      st := if deliver then DATA else SKIP;
      got := 0;
    }

    /** The extra field, as much of it as is there. */
    method OnExtra(b: seq<byte>, i: nat) returns (j: nat, told: seq<Told>)
      requires Ok() && st == EXTRA && i < |b|
      modifies this`st, this`got
      ensures Ok() && i <= j <= |b|
      ensures After(wants, View(), b[j..]) == After(wants, old(View()), b[i..])
      ensures told + Tells(wants, View(), b[j..]) == Tells(wants, old(View()), b[i..])
      ensures if st == EXTRA then j == |b| else st == DATA || st == SKIP
    {
      hide After, Tells;
      ghost var h, nm, g := hdr[..], name[..nameLen], got;
      var skip := extraLen - got;
      if skip > |b| - i {
        skip := |b| - i;
      }
      got, j := got + skip, i + skip;
      assert b[i..] == b[i..j] + b[j..];
      if got < extraLen {
        ExtraBlock(wants, h, nm, g, b[i..j], b[j..]);
        told := [];
      } else {
        SkipExtra(wants, h, nm, g, b[i..j], b[j..]);
        told := Announce();
      }
    }

    /** A block of the entry's data, handed to the sink or passed over. */
    method OnData(b: seq<byte>, i: nat) returns (j: nat, told: seq<Told>)
      requires Ok() && (st == DATA || st == SKIP) && i < |b| && dataLeft > 0
      modifies this`dataLeft
      ensures Ok() && i < j <= |b|
      ensures After(wants, View(), b[j..]) == After(wants, old(View()), b[i..])
      ensures told + Tells(wants, View(), b[j..]) == Tells(wants, old(View()), b[i..])
    {
      hide After, Tells;
      var take := if dataLeft > |b| - i then |b| - i else dataLeft;
      j := i + take;
      assert b[i..] == b[i..j] + b[j..];
      if st == DATA {
        DataBlock(wants, dataLeft, b[i..j], b[j..]);
        told := AsBytes(b[i..j]);
      } else {
        SkipBlock(wants, dataLeft, b[i..j], b[j..]);
        told := [];
      }
      dataLeft := dataLeft - take;
    }

    /** The entry is complete: back to the next signature. */
    method EndEntry(ghost rest: seq<byte>) returns (told: seq<Told>)
      requires Ok() && (st == DATA || st == SKIP) && dataLeft == 0 && (st == SKIP ==> rest != [])
      modifies this`st, this`got
      ensures Ok() && st == SIG && After(wants, View(), rest) == After(wants, old(View()), rest)
      ensures told + Tells(wants, View(), rest) == Tells(wants, old(View()), rest)
    {
      if rest != [] {
        OpenEarly(wants, View(), rest);
      }
      told := if st == DATA then [End] else [];
      st, got := SIG, 0;
      assert hdr[..0] == [];
    }

    /** One byte of a signature, a header or a name. */
    method PushByte(x: byte)
      requires Ok() && (st == SIG || st == HDR || st == NAME)
      modifies this`st, this`err, this`got, this`dataLeft, this`nameLen, this`extraLen, hdr, name
      ensures Ok() && View() == Consume(wants, old(View()), x)
    {
      if st == SIG {
        PushSig(x);
      } else if st == HDR {
        PushHdr(x);
      } else {
        PushName(x);
      }
    }

    /** How many silent transitions may follow. */
    function Rank(): nat
      reads this`st
    {
      if st == EXTRA then 2 else if st == DATA || st == SKIP then 1 else 0
    }

    /** One turn of the loop: a byte, a block, or a transition that reads nothing. */
    method Turn(b: seq<byte>, i: nat) returns (j: nat, told: seq<Told>)
      requires Ok() && st != DONE && st != ERR && (i < |b| || (i == |b| && st == DATA && dataLeft == 0))
      modifies this, hdr, name
      ensures Ok() && i <= j <= |b| && (i < j || Rank() < old(Rank()))
      ensures After(wants, View(), b[j..]) == After(wants, old(View()), b[i..])
      ensures told + Tells(wants, View(), b[j..]) == Tells(wants, old(View()), b[i..])
    {
      hide After, Tells;
      if st == DATA || st == SKIP {
        if dataLeft == 0 {
          told := EndEntry(b[i..]);
          j := i;
        } else {
          j, told := OnData(b, i);
        }
      } else if st == EXTRA {
        j, told := OnExtra(b, i);
      } else {
        assert b[i..] == [b[i]] + b[i + 1..];
        Reads(wants, View(), b[i], b[i + 1..]);
        PushByte(b[i]);
        j, told := i + 1, [];
      }
    }

    /**
      One delivery of any size: the reader ends in the state and tells the sinks the things that the bytes, one by
      one, call for; it answers false exactly when the archive has been refused.
     */
    method Feed(b: seq<byte>) returns (ok: bool, told: seq<Told>)
      requires Ok()
      modifies this, hdr, name
      ensures Ok() && View() == After(wants, old(View()), b) && told == Tells(wants, old(View()), b)
      ensures ok <==> !View().Err?
    {
      told := [];
      var i := 0;
      assert b[0..] == b;
      while i < |b| || (st == DATA && dataLeft == 0)
        invariant Ok() && i <= |b|
        invariant After(wants, View(), b[i..]) == After(wants, old(View()), b)
        invariant told + Tells(wants, View(), b[i..]) == Tells(wants, old(View()), b)
        decreases |b| - i, Rank()
      {
        if st == DONE || st == ERR {
          Finished(wants, View(), b[i..]);
          return st == DONE, told;
        }
        ghost var was, z, rest := told, View(), b[i..];
        var j, more := Turn(b, i);
        Assoc(was, more, Tells(wants, View(), b[j..]));
        i, told := j, told + more;
      }
      assert b[i..] == [];
      ok := st != ERR;
    }
  }

  lemma {:induction false} Finished(wants: Wants, z: Z, s: seq<byte>)
    requires z.Done? || z.Err?
    ensures After(wants, z, s) == z && Tells(wants, z, s) == []
    decreases |s|
  {
    if s != [] {
      Finished(wants, z, s[1..]);
    }
  }
}
