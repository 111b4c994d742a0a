/**
  `onRx` on a locked link: 5-byte control frames and the COBS stream share one wire. Each delivery is scanned for
  control frames; a tail that may be the start of one is carried into the next delivery. `Route` says what the
  loop does while the link stays OK.
 */
module Demux {
  import opened Wire
  import opened Crc

  const CTRL: int := 5

  /** Where bytes go: a control frame's handler, or the COBS framer. */
  datatype Item = Ctrl(frame: seq<byte>) | ToFramer(b: byte)

  predicate IsCtrl(c: seq<byte>) {
    |c| == CTRL && c[0] == 0xAA && c[1] == 0x55 && Crc8(c[..4]) == c[4]
  }

  /** A tail too short to judge: it may turn out to start a control frame. */
  predicate MayStart(t: seq<byte>) {
    1 <= |t| < CTRL && t[0] == 0xAA && (|t| < 2 || t[1] == 0x55)
  }

  function Items(s: seq<byte>): (r: seq<Item>)
    ensures |r| == |s|
  {
    seq(|s|, i requires 0 <= i < |s| => ToFramer(s[i]))
  }

  lemma ItemsOne(b: byte)
    ensures Items([b]) == [ToFramer(b)]
  {
  }

  lemma ItemsAppend(x: seq<byte>, y: seq<byte>)
    ensures Items(x + y) == Items(x) + Items(y)
  {
  }

  /** The items a delivery is cut into when nothing is carried; a doubtful tail is left over. */
  function Scan(data: seq<byte>): seq<Item> {
    if data == [] || MayStart(data) then []
    else if |data| >= CTRL && IsCtrl(data[..CTRL]) then [Ctrl(data[..CTRL])] + Scan(data[CTRL..])
    else [ToFramer(data[0])] + Scan(data[1..])
  }

  /** The tail it leaves over. */
  function Tail(data: seq<byte>): seq<byte> {
    if data == [] || MayStart(data) then data
    else if |data| >= CTRL && IsCtrl(data[..CTRL]) then Tail(data[CTRL..])
    else Tail(data[1..])
  }

  /** A delivery behind a carry of at most four bytes: the first five bytes are judged as one candidate. */
  function Route(carry: seq<byte>, data: seq<byte>): seq<Item> {
    var all := carry + data;
    if carry == [] then Scan(data)
    else if |all| < CTRL then []
    else Judge(all[..CTRL]) + Scan(all[CTRL..])
  }

  function Carried(carry: seq<byte>, data: seq<byte>): seq<byte> {
    var all := carry + data;
    if carry == [] then Tail(data)
    else if |all| < CTRL then all
    else Tail(all[CTRL..])
  }

  // ----- conservation -----

  /** The bytes a list of items stands for. */
  function Bytes(items: seq<Item>): seq<byte> {
    if items == [] then [] else BytesOf(items[0]) + Bytes(items[1..])
  }

  function BytesOf(item: Item): seq<byte> {
    match item
    case Ctrl(f) => f
    case ToFramer(b) => [b]
  }

  lemma {:induction false} BytesAppend(x: seq<Item>, y: seq<Item>)
    ensures Bytes(x + y) == Bytes(x) + Bytes(y)
  {
    if x == [] {
      assert x + y == y;
    } else {
      assert (x + y)[1..] == x[1..] + y;
      BytesAppend(x[1..], y);
    }
  }

  lemma {:induction false} BytesOfItems(s: seq<byte>)
    ensures Bytes(Items(s)) == s
  {
    if s != [] {
      assert Items(s)[1..] == Items(s[1..]);
      BytesOfItems(s[1..]);
    }
  }

  predicate CtrlsValid(items: seq<Item>) {
    forall i :: 0 <= i < |items| && items[i].Ctrl? ==> IsCtrl(items[i].frame)
  }

  lemma OneMore(item: Item, items: seq<Item>, tail: seq<byte>, rest: seq<byte>)
    requires Bytes(items) + tail == rest
    ensures Bytes([item] + items) + tail == BytesOf(item) + rest
  {
    assert ([item] + items)[1..] == items;
    Assoc(BytesOf(item), Bytes(items), tail);
  }

  lemma {:induction false} ScanConserves(data: seq<byte>)
    ensures Bytes(Scan(data)) + Tail(data) == data
  {
    if data == [] || MayStart(data) {
      assert Bytes([]) + data == data;
    } else if |data| >= CTRL && IsCtrl(data[..CTRL]) {
      var rest := data[CTRL..];
      ScanConserves(rest);
      OneMore(Ctrl(data[..CTRL]), Scan(rest), Tail(rest), rest);
      assert data == data[..CTRL] + rest;
    } else {
      var rest := data[1..];
      ScanConserves(rest);
      OneMore(ToFramer(data[0]), Scan(rest), Tail(rest), rest);
      assert data == [data[0]] + rest;
    }
  }

  lemma {:induction false} ScanSound(data: seq<byte>)
    ensures CtrlsValid(Scan(data))
    ensures Tail(data) == [] || MayStart(Tail(data))
  {
    if data == [] || MayStart(data) {
    } else if |data| >= CTRL && IsCtrl(data[..CTRL]) {
      ScanSound(data[CTRL..]);
    } else {
      ScanSound(data[1..]);
    }
  }

  /** The items the first five bytes behind a carry become. */
  function Judge(c: seq<byte>): seq<Item> {
    if IsCtrl(c) then [Ctrl(c)] else Items(c)
  }

  lemma JudgeConserves(c: seq<byte>)
    ensures Bytes(Judge(c)) == c && CtrlsValid(Judge(c))
  {
    BytesOfItems(c);
    if IsCtrl(c) {
      assert Bytes([Ctrl(c)]) == c + Bytes([Ctrl(c)][1..]);
    }
  }

  lemma RouteConserves(carry: seq<byte>, data: seq<byte>)
    requires |carry| < CTRL
    ensures Bytes(Route(carry, data)) + Carried(carry, data) == carry + data
  {
    var all := carry + data;
    if carry == [] {
      assert all == data;
      ScanConserves(data);
    } else if |all| < CTRL {
      assert Bytes([]) + all == all;
    } else {
      var rest := all[CTRL..];
      JudgeConserves(all[..CTRL]);
      ScanConserves(rest);
      BytesAppend(Judge(all[..CTRL]), Scan(rest));
      Assoc(all[..CTRL], Bytes(Scan(rest)), Tail(rest));
      assert all == all[..CTRL] + rest;
    }
  }

  lemma RouteSound(carry: seq<byte>, data: seq<byte>)
    requires |carry| < CTRL
    ensures CtrlsValid(Route(carry, data)) && |Carried(carry, data)| < CTRL
  {
    var all := carry + data;
    if carry == [] {
      ScanSound(data);
    } else if |all| >= CTRL {
      JudgeConserves(all[..CTRL]);
      ScanSound(all[CTRL..]);
    }
  }

  function RouteAll(carry: seq<byte>, chunks: seq<seq<byte>>): seq<Item>
    decreases |chunks|
  {
    if chunks == [] then [] else Route(carry, chunks[0]) + RouteAll(Carried(carry, chunks[0]), chunks[1..])
  }

  function CarriedAll(carry: seq<byte>, chunks: seq<seq<byte>>): seq<byte>
    decreases |chunks|
  {
    if chunks == [] then carry else CarriedAll(Carried(carry, chunks[0]), chunks[1..])
  }

  /**
    Conservation over a whole run of deliveries: each byte goes exactly once, in stream order, into a CRC-valid
    control frame, to the framer, or into a carry of at most four bytes.
   */
  lemma {:induction false} NoByteLost(carry: seq<byte>, chunks: seq<seq<byte>>)
    requires |carry| < CTRL
    ensures Bytes(RouteAll(carry, chunks)) + CarriedAll(carry, chunks) == carry + Flatten(chunks)
    ensures CtrlsValid(RouteAll(carry, chunks)) && |CarriedAll(carry, chunks)| < CTRL
    decreases |chunks|
  {
    if chunks == [] {
      assert Bytes([]) + carry == carry + [];
    } else {
      var here, next := Route(carry, chunks[0]), Carried(carry, chunks[0]);
      RouteConserves(carry, chunks[0]);
      RouteSound(carry, chunks[0]);
      NoByteLost(next, chunks[1..]);
      BytesAppend(here, RouteAll(next, chunks[1..]));
      Assoc(Bytes(here), Bytes(RouteAll(next, chunks[1..])), CarriedAll(next, chunks[1..]));
      Assoc(Bytes(here), next, Flatten(chunks[1..]));
      Assoc(carry, chunks[0], Flatten(chunks[1..]));
    }
  }

  /** What is held back is at most four bytes, the first 0xAA and the second, if there is one, 0x55. */
  lemma HeldOnlyInDoubt(data: seq<byte>)
    ensures var t := Tail(data);
      && |t| <= 4 && |t| <= |data| && t == data[|data| - |t|..]
      && (t != [] ==> t[0] == 0xAA) && (|t| >= 2 ==> t[1] == 0x55)
  {
    ScanSound(data);
    ScanConserves(data);
    var items := Bytes(Scan(data));
    assert (items + Tail(data))[|items|..] == Tail(data);
  }

  // ----- where a delivery ends does matter, and exactly when -----

  /** A control frame starts at offset `k`. */
  predicate StartsAt(s: seq<byte>, k: nat) {
    k + CTRL <= |s| && IsCtrl(s[k..k + CTRL])
  }

  /** At offset `k` a scan would not just pass the byte on: a control frame starts there, or may yet. */
  predicate Catches(s: seq<byte>, k: nat)
    requires k <= |s|
  {
    StartsAt(s, k) || MayStart(s[k..])
  }

  lemma CatchesBehind(s: seq<byte>, k: nat)
    requires 1 <= k <= |s|
    ensures Catches(s[1..], k - 1) <==> Catches(s, k)
  {
    assert s[1..][k - 1..] == s[k..];
    if k + CTRL <= |s| { assert s[1..][k - 1..k - 1 + CTRL] == s[k..k + CTRL]; }
  }

  lemma ScanOne(b: byte, rest: seq<byte>)
    requires !Catches([b] + rest, 0)
    ensures Scan([b] + rest) == [ToFramer(b)] + Scan(rest) && Tail([b] + rest) == Tail(rest)
  {
    hide IsCtrl, MayStart;
    var s := [b] + rest;
    assert s[0..] == s && s[1..] == rest;
    if |s| >= CTRL { assert s[0..CTRL] == s[..CTRL]; }
  }

  lemma ScanCtrl(c: seq<byte>, rest: seq<byte>)
    requires IsCtrl(c)
    ensures Scan(c + rest) == [Ctrl(c)] + Scan(rest) && Tail(c + rest) == Tail(rest)
  {
    assert (c + rest)[..CTRL] == c && (c + rest)[CTRL..] == rest;
  }

  /** While nothing catches, the scan passes bytes on one at a time. */
  lemma {:induction false} ScanPasses(s: seq<byte>, k: nat)
    requires k <= |s| && forall j :: 0 <= j < k ==> !Catches(s, j)
    ensures Scan(s) == Items(s[..k]) + Scan(s[k..]) && Tail(s) == Tail(s[k..])
    decreases k
  {
    hide Scan, Tail, Items, Catches;
    if k == 0 {
      assert s[0..] == s && s[..0] == [];
    } else {
      var rest := s[1..];
      assert s == [s[0]] + rest;
      ScanOne(s[0], rest);
      forall j | 0 <= j < k - 1
        ensures !Catches(rest, j)
      {
        CatchesBehind(s, j + 1);
      }
      ScanPasses(rest, k - 1);
      assert rest[k - 1..] == s[k..] && s[..k] == [s[0]] + rest[..k - 1];
      ItemsOne(s[0]);
      ItemsAppend([s[0]], rest[..k - 1]);
      Assoc(Items([s[0]]), Items(rest[..k - 1]), Scan(s[k..]));
    }
  }

  /** Where it catches, it passes nothing on. */
  lemma ScanStops(s: seq<byte>, k: nat)
    requires k < |s| && Catches(s, k)
    ensures Scan(s[k..]) == [] || Scan(s[k..])[0].Ctrl?
  {
    if StartsAt(s, k) { assert s[k..][..CTRL] == s[k..k + CTRL]; }
  }

  /** The first of the offsets up to `k` that catches. */
  lemma FirstCatch(s: seq<byte>, k: nat) returns (j: nat)
    requires k <= |s| && Catches(s, k)
    ensures j <= k && Catches(s, j) && forall i :: 0 <= i < j ==> !Catches(s, i)
  {
    hide Catches;
    j := 0;
    while !Catches(s, j)
      invariant j <= k && forall i :: 0 <= i < j ==> !Catches(s, i)
      decreases k - j
    {
      j := j + 1;
    }
  }

  /** A false alarm that swallows an offset which a scan would have caught. */
  lemma FalseAlarmDiffers(all: seq<byte>, k: nat)
    requires |all| >= CTRL && !IsCtrl(all[..CTRL]) && 1 <= k < CTRL && Catches(all, k)
    ensures Judge(all[..CTRL]) + Scan(all[CTRL..]) != Scan(all)
  {
    var j := FirstCatch(all, k);
    ScanPasses(all, j);
    ScanStops(all, j);
    assert Items(all[..CTRL])[j] == ToFramer(all[j]);
    if Scan(all[j..]) != [] { assert Scan(all)[j] == Scan(all[j..])[0]; }
  }

  /** A false alarm that swallows none: the five bytes would have gone to the framer anyway. */
  lemma FalseAlarmPasses(all: seq<byte>)
    requires |all| >= CTRL && !IsCtrl(all[..CTRL]) && forall k :: 1 <= k < CTRL ==> !Catches(all, k)
    ensures Judge(all[..CTRL]) + Scan(all[CTRL..]) == Scan(all) && Tail(all[CTRL..]) == Tail(all)
  {
    assert all[0..CTRL] == all[..CTRL];
    ScanPasses(all, CTRL);
  }

  /**
    A delivery behind a carry is routed as if both had come in one piece, unless the carry was a false alarm: then
    the five bytes judged together all go to the framer, and a control frame that starts, or may yet start, at the
    second to fifth of them is missed. Behind a carry that five bytes do not yet complete, nothing moves.
   */
  lemma CarryMatters(carry: seq<byte>, data: seq<byte>)
    requires 1 <= |carry| < CTRL
    ensures |carry + data| < CTRL ==>
      && Route(carry, data) == [] && Carried(carry, data) == carry + data
      && (Route(carry, data) == Scan(carry + data) <==> MayStart(carry + data))
    ensures |carry + data| >= CTRL ==>
      (Route(carry, data) == Scan(carry + data) <==>
        IsCtrl((carry + data)[..CTRL]) || forall k :: 1 <= k < CTRL ==> !Catches(carry + data, k))
    ensures Route(carry, data) == Scan(carry + data) ==> Carried(carry, data) == Tail(carry + data)
  {
    hide IsCtrl, Catches;
    var all := carry + data;
    if |all| >= CTRL && !IsCtrl(all[..CTRL]) {
      if k :| 1 <= k < CTRL && Catches(all, k) {
        FalseAlarmDiffers(all, k);
      } else {
        FalseAlarmPasses(all);
      }
    }
  }

  /** A stray 0xAA hides the control frame right behind it when the next delivery ends one byte short of that frame. */
  lemma StrayByteHidesCtrl()
    ensures var c: seq<byte> := [0xAA, 0x55, 1, 1, 0x95];
      && IsCtrl(c) && Scan([0xAA] + c) == [ToFramer(0xAA), Ctrl(c)]
      && RouteAll([], [[0xAA], c[..4], c[4..]]) == Items([0xAA] + c)
  {
    hide Crc8, Scan, Tail;
    PatternCrc();
    var c: seq<byte> := [0xAA, 0x55, 1, 1, 0x95];
    assert c[..4] == [0xAA, 0x55, 1, 1];
    StrayByteSeen(c);
    StrayByteRouted(c);
  }

  lemma StrayByteSeen(c: seq<byte>)
    requires IsCtrl(c)
    ensures Scan([0xAA] + c) == [ToFramer(0xAA), Ctrl(c)]
  {
    hide Crc8;
    var all := [0xAA] + c;
    assert all[0..] == all && all[0..CTRL][1] == 0xAA;
    ScanOne(0xAA, c);
    ScanCtrl(c, []);
    assert c + [] == c;
  }

  lemma StrayByteRouted(c: seq<byte>)
    requires IsCtrl(c) && c[4] != 0xAA
    ensures RouteAll([], [[0xAA], c[..4], c[4..]]) == Items([0xAA] + c)
  {
    hide Crc8;
    var five := [0xAA] + c[..4];
    assert five[..CTRL] == five && five[CTRL..] == [] && five[1] == 0xAA;
    assert c[4..] == [c[4]] + [];
    ScanOne(c[4], []);
    RouteAllCons([], c[4..], []);
    RouteAllCons([0xAA], c[..4], [c[4..]]);
    RouteAllCons([], [0xAA], [c[..4], c[4..]]);
    ItemsAppend(five, c[4..]);
    assert five + c[4..] == [0xAA] + c;
  }

  lemma RouteAllCons(carry: seq<byte>, data: seq<byte>, rest: seq<seq<byte>>)
    ensures RouteAll(carry, [data] + rest) == Route(carry, data) + RouteAll(Carried(carry, data), rest)
  {
    assert ([data] + rest)[1..] == rest;
  }

  lemma MayStartOf(c: seq<byte>, k: nat)
    requires IsCtrl(c) && 0 < k < CTRL
    ensures MayStart(c[..k])
  {
  }

  /** A control frame cut in two at any point by the delivery boundary is still recognised. */
  lemma SplitCtrlSeen(c: seq<byte>, k: nat, rest: seq<byte>)
    requires IsCtrl(c) && 0 < k < CTRL
    ensures Route([], c[..k]) == [] && Carried([], c[..k]) == c[..k]
    ensures Route(c[..k], c[k..] + rest) == [Ctrl(c)] + Scan(rest)
  {
    hide Crc8;
    MayStartOf(c, k);
    assert c[..k] + (c[k..] + rest) == c + rest;
    assert (c + rest)[..CTRL] == c && (c + rest)[CTRL..] == rest;
  }

  // ----- the loop -----

  /** Mid-scan: what is already handed over, the run not yet handed over, and the bytes still to judge make the whole. */
  ghost predicate Scanning(data: seq<byte>, from: nat, start: nat, i: nat, items: seq<Item>) {
    && from <= start <= i <= |data|
    && items + Items(data[start..i]) + Scan(data[i..]) == Scan(data[from..])
    && Tail(data[i..]) == Tail(data[from..])
  }

  lemma TakeCtrl(data: seq<byte>, from: nat, start: nat, i: nat, items: seq<Item>)
    requires Scanning(data, from, start, i, items) && StartsAt(data, i)
    ensures Scanning(data, from, i + CTRL, i + CTRL, items + Items(data[start..i]) + [Ctrl(data[i..i + CTRL])])
  {
    hide Scan, Tail, Items, IsCtrl;
    var c, rest := data[i..i + CTRL], data[i + CTRL..];
    assert data[i..] == c + rest;
    assert |data[i + CTRL..i + CTRL]| == 0;
    ScanCtrl(c, rest);
    var done := items + Items(data[start..i]);
    Assoc(done, [Ctrl(c)], Scan(rest));
    assert done + [Ctrl(c)] + Items([]) == done + [Ctrl(c)];
  }

  lemma PassByte(data: seq<byte>, from: nat, start: nat, i: nat, items: seq<Item>)
    requires Scanning(data, from, start, i, items) && i < |data| && !StartsAt(data, i) && !MayStart(data[i..])
    ensures Scanning(data, from, start, i + 1, items)
  {
    hide Scan, Tail, Items, IsCtrl, MayStart;
    var b, rest := data[i], data[i + 1..];
    assert data[i..] == [b] + rest && data[start..i + 1] == data[start..i] + [b];
    CatchesHere(data, i);
    ScanOne(b, rest);
    ItemsOne(b);
    ItemsAppend(data[start..i], [b]);
    Assoc(items + Items(data[start..i]), [ToFramer(b)], Scan(rest));
    Assoc(items, Items(data[start..i]), [ToFramer(b)]);
  }

  lemma CatchesHere(data: seq<byte>, i: nat)
    requires i < |data|
    ensures Catches(data[i..], 0) <==> StartsAt(data, i) || MayStart(data[i..])
  {
    var rest := data[i..];
    assert rest[0..] == rest;
    if |rest| >= CTRL { assert rest[0..CTRL] == data[i..i + CTRL]; }
  }

  /** The scan ends at the end of the delivery or at a doubtful tail. */
  lemma StopScan(data: seq<byte>, from: nat, start: nat, i: nat, items: seq<Item>)
    requires Scanning(data, from, start, i, items) && (i == |data| || MayStart(data[i..]))
    ensures items + Items(data[start..i]) == Scan(data[from..]) && data[i..] == Tail(data[from..])
  {
  }

  method CtrlAt(data: seq<byte>, i: nat) returns (yes: bool)
    requires i < |data|
    ensures yes <==> StartsAt(data, i)
  {
    if data[i] == 0xAA && |data| - i >= CTRL && data[i + 1] == 0x55 {
      var cand := data[i..i + CTRL];
      var crc := Crc8Loop(cand[..4]);
      return crc == cand[4];
    }
    return false;
  }

  class RxDemux {
    const okCarry: array<byte>
    var okCarryLen: nat

    ghost predicate Valid()
      reads this
    {
      okCarry.Length == CTRL && okCarryLen < CTRL
    }

    ghost function Carry(): seq<byte>
      requires Valid()
      reads this, okCarry
    {
      okCarry[..okCarryLen]
    }

    constructor ()
      ensures Valid() && Carry() == [] && fresh(okCarry)
    {
      okCarry := new byte[CTRL];
      okCarryLen := 0;
    }

    /**
      Completes the candidate held from the previous delivery, as far as this one allows, and judges it. `n` is how
      many bytes of the delivery that took.
     */
    method FinishCarry(data: seq<byte>) returns (n: nat, items: seq<Item>)
      requires Valid() && okCarryLen > 0
      modifies this`okCarryLen, okCarry
      ensures Valid() && n <= |data|
      ensures var all := old(Carry()) + data;
        if |all| < CTRL then n == |data| && items == [] && Carry() == all
        else n == CTRL - old(okCarryLen) && items == Judge(all[..CTRL]) && Carry() == []
    {
      n := 0;
      ghost var held := Carry();
      var k := okCarryLen;
      while k < CTRL && n < |data|
        invariant k == okCarryLen + n <= CTRL && n <= |data|
        invariant Valid() && okCarryLen == old(okCarryLen)
        invariant okCarry[..k] == held + data[..n]
      {
        okCarry[k] := data[n];
        k, n := k + 1, n + 1;
      }
      ghost var all := held + data;
      if k < CTRL {
        okCarryLen := k;
        return n, [];
      }
      var c := okCarry[..CTRL];
      assert c == all[..CTRL];
      okCarryLen := 0;
      var crc := Crc8Loop(c[..4]);
      if c[0] == 0xAA && c[1] == 0x55 && crc == c[4] {
        items := [Ctrl(c)];
      } else {
        items := Items(c);
      }
    }

    /** Scans a delivery from `from` on with nothing carried; what the framer gets is handed over run by run. */
    method ScanFrom(data: seq<byte>, from: nat) returns (items: seq<Item>)
      requires Valid() && okCarryLen == 0 && from <= |data|
      modifies this`okCarryLen, okCarry
      ensures Valid() && items == Scan(data[from..]) && Carry() == Tail(data[from..])
    {
      hide Scan, Tail;
      items := [];
      var i: nat, start: nat := from, from;
      while i < |data|
        invariant Valid() && okCarryLen == 0
        invariant Scanning(data, from, start, i, items)
      {
        var isCtrl := CtrlAt(data, i);
        if isCtrl {
          TakeCtrl(data, from, start, i, items);
          items := items + Items(data[start..i]) + [Ctrl(data[i..i + CTRL])];
          i := i + CTRL;
          start := i;
          continue;
        }
        var len := |data| - i;
        if data[i] == 0xAA && len < CTRL && (len < 2 || data[i + 1] == 0x55) {
          break;
        }
        PassByte(data, from, start, i, items);
        i := i + 1;
      }
      StopScan(data, from, start, i, items);
      items := items + Items(data[start..i]);
      HoldTail(data[i..]);
    }

    method HoldTail(t: seq<byte>)
      requires Valid() && |t| < CTRL
      modifies this`okCarryLen, okCarry
      ensures Valid() && Carry() == t
    {
      okCarryLen := 0;
      while okCarryLen < |t|
        invariant Valid() && okCarryLen <= |t| && okCarry[..okCarryLen] == t[..okCarryLen]
      {
        okCarry[okCarryLen] := t[okCarryLen];
        okCarryLen := okCarryLen + 1;
      }
    }

    /** One delivery on a link that stays OK. */
    method OnRx(data: seq<byte>) returns (items: seq<Item>)
      requires Valid()
      modifies this`okCarryLen, okCarry
      ensures Valid() && items == Route(old(Carry()), data) && Carry() == Carried(old(Carry()), data)
    {
      items := [];
      var i := 0;
      if |data| > 0 && okCarryLen > 0 {
        ghost var all := Carry() + data;
        i, items := FinishCarry(data);
        if okCarryLen > 0 {
          return;
        }
        assert all[CTRL..] == data[i..];
      }
      if i < |data| {
        var more := ScanFrom(data, i);
        assert data[0..] == data;
        items := items + more;
      }
    }
  }
}
