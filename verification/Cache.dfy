/**
  The retransmission cache: 256 slots keyed on the wire sequence, backed by a pool of 64 buffers of 256
  bytes. `Contents` is the map from sequence to bytes that the slots, the pool and the counters implement.
 */
module Cache {
  import opened Wire

  const SLOTS: int := 256
  const POOL_SIZE: int := 64
  const POOL_BUF_MAX: int := 256
  const NO_BUF: byte := 0xFF

  datatype Slot = Slot(len: nat, poolIdx: byte, inUse: bool)

  const EMPTY_SLOT := Slot(0, NO_BUF, false)

  /** How many pool buffers are marked used. */
  function CountTrue(b: seq<bool>): (n: nat)
    ensures n <= |b|
  {
    if b == [] then 0 else CountTrue(b[..|b| - 1]) + (if b[|b| - 1] then 1 else 0)
  }

  lemma {:induction false} CountTrueUpdate(b: seq<bool>, i: nat, v: bool)
    requires i < |b|
    ensures CountTrue(b[i := v]) == CountTrue(b) + (if v then 1 else 0) - (if b[i] then 1 else 0)
  {
    var k := |b| - 1;
    if i < k {
      assert b[i := v][..k] == b[..k][i := v];
      CountTrueUpdate(b[..k], i, v);
    } else {
      assert b[i := v][..k] == b[..k];
    }
  }

  lemma {:induction false} CountTrueFull(b: seq<bool>)
    requires forall i :: 0 <= i < |b| ==> b[i]
    ensures CountTrue(b) == |b|
  {
    if b != [] {
      CountTrueFull(b[..|b| - 1]);
    }
  }

  lemma {:induction false} CountTrueNone(b: seq<bool>)
    requires forall i :: 0 <= i < |b| ==> !b[i]
    ensures CountTrue(b) == 0
  {
    if b != [] {
      CountTrueNone(b[..|b| - 1]);
    }
  }

  /** The sequences whose cached chunk occupies a pool buffer. */
  ghost function Buffered(m: map<byte, seq<byte>>): set<byte> {
    set q | q in m && m[q] != []
  }

  lemma BufferedRemove(m: map<byte, seq<byte>>, q: byte)
    requires q in m
    ensures |m - {q}| == |m| - 1
    ensures |Buffered(m - {q})| == |Buffered(m)| - (if m[q] == [] then 0 else 1)
  {
    assert (m - {q}).Keys == m.Keys - {q};
    assert |m| == |m.Keys|;
    assert Buffered(m - {q}) == Buffered(m) - {q};
  }

  lemma BufferedInsert(m: map<byte, seq<byte>>, q: byte, b: seq<byte>)
    requires q !in m
    ensures |m[q := b]| == |m| + 1
    ensures |Buffered(m[q := b])| == |Buffered(m)| + (if b == [] then 0 else 1)
  {
    var r := m[q := b];
    assert r - {q} == m;
    BufferedRemove(r, q);
  }

  class ArqCache {
    const slots: array<Slot>
    const pool: array2<byte>
    const poolUsed: array<bool>
    var pendingCount: int
    var poolFree: int
    var window: int
    const windowMax: int

    ghost var Contents: map<byte, seq<byte>>
    ghost var owner: seq<byte>  // the slot that last took each pool buffer
    ghost const Repr: set<object>

    ghost predicate Shape()
      reads this`owner
    {
      && slots.Length == SLOTS && poolUsed.Length == POOL_SIZE
      && pool.Length0 == POOL_SIZE && pool.Length1 == POOL_BUF_MAX
      && Repr == {this, slots, pool, poolUsed} && |owner| == POOL_SIZE
    }

    /** Slot `q` holds exactly what `Contents` says. */
    ghost predicate SlotOk(q: byte)
      requires Shape()
      reads this`Contents, this`owner, slots, pool, poolUsed
    {
      var s := slots[q];
      if q !in Contents then s == EMPTY_SLOT
      else
        && s.inUse && s.len == |Contents[q]| <= POOL_BUF_MAX
        && (s.len == 0 <==> s.poolIdx == NO_BUF)
        && (s.len > 0 ==>
              && s.poolIdx < POOL_SIZE && poolUsed[s.poolIdx] && owner[s.poolIdx] == q
              && forall k :: 0 <= k < s.len ==> pool[s.poolIdx, k] == Contents[q][k])
    }

    /** The counters equal their scans, and each used buffer is counted by one buffered slot. */
    ghost predicate CountersOk()
      requires Shape()
      reads Repr
    {
      && pendingCount == |Contents|
      && poolFree == POOL_SIZE - CountTrue(poolUsed[..])
      && poolFree == POOL_SIZE - |Buffered(Contents)|
    }

    /** Every slot but `q` is right, and `q` holds no buffer; `Contents` does not list it. */
    ghost predicate Opened(q: byte)
      reads this, Repr
    {
      && Shape()
      && q !in Contents && slots[q].len == 0 && slots[q].poolIdx == NO_BUF
      && (forall p: byte :: p != q ==> SlotOk(p))
      && CountersOk()
      && window <= windowMax
    }

    ghost predicate Valid()
      reads this, Repr
    {
      && Shape()
      && (forall q: byte :: SlotOk(q))
      && CountersOk()
      && window <= windowMax
    }

    lemma NoSharing(p: byte, q: byte)
      requires Valid() && p != q && p in Contents && q in Contents
      requires Contents[p] != [] && Contents[q] != []
      ensures slots[p].poolIdx != slots[q].poolIdx
    {
      assert SlotOk(p) && SlotOk(q);
    }

    constructor (w: int)
      ensures Valid() && fresh(Repr) && Contents == map[] && window == windowMax == w
    {
      var s := new Slot[SLOTS](_ => EMPTY_SLOT);
      var p := new byte[POOL_SIZE, POOL_BUF_MAX]((_, _) => 0);
      var u := new bool[POOL_SIZE](_ => false);
      slots, pool, poolUsed := s, p, u;
      Repr := {this, s, p, u};
      pendingCount, poolFree := 0, POOL_SIZE;
      window, windowMax := w, w;
      Contents, owner := map[], seq(POOL_SIZE, _ => 0);
      new;
      CountTrueNone(poolUsed[..]);
      assert Buffered(Contents) == {};
    }

    /** Gives a pool buffer back. */
    method GiveBack(i: byte)
      requires Shape() && i < POOL_SIZE && poolUsed[i] && poolFree < POOL_SIZE
      modifies poolUsed, this`poolFree
      ensures poolUsed[..] == old(poolUsed[..])[i := false] && poolFree == old(poolFree) + 1
      ensures CountTrue(poolUsed[..]) == old(CountTrue(poolUsed[..])) - 1
    {
      hide CountTrue;
      ghost var was := poolUsed[..];
      poolUsed[i] := false;
      assert poolUsed[..] == was[i := false];
      CountTrueUpdate(was, i, false);
      if poolFree < POOL_SIZE {
        poolFree := poolFree + 1;
      }
    }

    /** Some buffer is in use, so not all of them are free. */
    lemma NotAllFree(i: byte)
      requires Shape() && CountersOk() && i < POOL_SIZE && poolUsed[i]
      ensures poolFree < POOL_SIZE
    {
      CountTrueUpdate(poolUsed[..], i, false);
    }

    /** Gives back the pool buffer of a slot in use and un-counts the slot, as `insert` and `freeBySeq` both do. */
    method Release(q: byte)
      requires Valid() && q in Contents
      modifies Repr
      ensures Opened(q) && slots[q].inUse
      ensures Contents == old(Contents) - {q} && window == old(window)
    {
      hide CountTrue, Buffered;
      assert SlotOk(q);
      var oldPool := slots[q].poolIdx;
      if oldPool < POOL_SIZE {
        NotAllFree(oldPool);
        GiveBack(oldPool);
      }
      slots[q] := Slot(0, NO_BUF, true);
      if pendingCount > 0 {
        pendingCount := pendingCount - 1;
      }
      BufferedRemove(Contents, q);
      Contents := Contents - {q};
      forall p: byte | p != q
        ensures SlotOk(p)
      {
        assert old(SlotOk(p) && SlotOk(q));
      }
    }

    /** Marks the free pool buffer `i` used and copies the payload into it. */
    method TakeBuffer(i: byte, payload: seq<byte>)
      requires Shape() && i < POOL_SIZE && !poolUsed[i] && |payload| <= POOL_BUF_MAX
      modifies pool, poolUsed, this`poolFree
      ensures forall j, k :: 0 <= j < POOL_SIZE && 0 <= k < POOL_BUF_MAX ==>
        pool[j, k] == if j == i && k < |payload| then payload[k] else old(pool[j, k])
      ensures poolUsed[..] == old(poolUsed[..])[i := true] && poolFree == old(poolFree) - 1
      ensures CountTrue(poolUsed[..]) == old(CountTrue(poolUsed[..])) + 1
    {
      hide CountTrue;
      ghost var was := poolUsed[..];
      forall k | 0 <= k < |payload| {
        pool[i, k] := payload[k];
      }
      poolUsed[i] := true;
      assert poolUsed[..] == was[i := true];
      CountTrueUpdate(was, i, true);
      poolFree := poolFree - 1;
    }

    /** Fills an opened slot and a free pool buffer with the payload. */
    method Store(q: byte, payload: seq<byte>)
      requires Opened(q) && 1 <= |payload| <= POOL_BUF_MAX && poolFree > 0
      modifies Repr
      ensures Valid()
      ensures Contents == old(Contents)[q := payload] && window == old(window)
    {
      hide CountTrue, Buffered;
      var freeIdx := FindFree();
      TakeBuffer(freeIdx, payload);
      slots[q] := Slot(|payload|, freeIdx, true);
      pendingCount := pendingCount + 1;
      BufferedInsert(Contents, q, payload);
      Contents, owner := Contents[q := payload], owner[freeIdx := q];
      forall p: byte | p != q
        ensures SlotOk(p)
      {
        assert old(SlotOk(p));
      }
      assert SlotOk(q);
    }

    /** An empty payload takes a slot but no pool buffer. */
    method StoreEmpty(q: byte)
      requires Opened(q)
      modifies Repr
      ensures Valid()
      ensures Contents == old(Contents)[q := []] && window == old(window)
    {
      hide CountTrue, Buffered;
      slots[q] := Slot(0, NO_BUF, true);
      pendingCount := pendingCount + 1;
      BufferedInsert(Contents, q, []);
      Contents := Contents[q := []];
      forall p: byte
        ensures SlotOk(p)
      {
        assert p != q ==> old(SlotOk(p));
      }
    }

    /** The first free pool buffer. The counters rule out the search failing. */
    method FindFree() returns (freeIdx: byte)
      requires Shape() && CountersOk() && poolFree > 0
      ensures freeIdx < POOL_SIZE && !poolUsed[freeIdx]
    {
      var i: byte := 0;
      while i < POOL_SIZE
        invariant i <= POOL_SIZE
        invariant forall j :: 0 <= j < i ==> poolUsed[j]
      {
        if !poolUsed[i] {
          return i;
        }
        i := i + 1;
      }
      CountTrueFull(poolUsed[..]);
      assert false;
    }

    /**
      Whether overwriting slot `q` would leave it marked in use but uncounted: the old entry has been given
      back, and the new payload is then refused for its size or for want of a pool buffer.
     */
    ghost predicate Drifts(q: byte, payload: seq<byte>)
      requires Valid()
      reads this, Repr
    {
      && q in Contents
      && (|payload| > POOL_BUF_MAX || (payload != [] && Contents[q] == [] && poolFree == 0))
    }

    /** Whether `insert` logs and returns without caching the payload. */
    ghost predicate Refuses(q: byte, payload: seq<byte>)
      requires Valid()
      reads this, Repr
    {
      || |payload| > POOL_BUF_MAX
      || (payload != [] && poolFree == 0 && (q in Contents ==> Contents[q] == []))
    }

    method Insert(q: byte, payload: seq<byte>)
      requires Valid()
      modifies Repr
      ensures Valid() <==> !old(Drifts(q, payload))
      ensures Valid() ==> Contents == if old(Refuses(q, payload)) then old(Contents) else old(Contents)[q := payload]
      ensures window == old(window)
    {
      assert SlotOk(q);
      if slots[q].inUse {
        BufferedRemove(Contents, q);
        Release(q);
      }
      assert SlotOk(q) <==> !slots[q].inUse;
      if payload == [] {
        StoreEmpty(q);
        return;
      }
      if |payload| > POOL_BUF_MAX {
        return;
      }
      if poolFree <= 0 {
        return;
      }
      Store(q, payload);
    }

    /** It does happen: a held chunk of one byte replaced by one too long for a pool buffer. */
    static method OversizeReplacement() returns (cache: ArqCache)
      ensures fresh(cache) && fresh(cache.Repr) && !cache.Valid()
    {
      cache := new ArqCache(32);
      assert cache.poolFree > 0 by { EmptyPool(cache); }
      cache.Insert(0, [1]);
      cache.Insert(0, seq(POOL_BUF_MAX + 1, _ => 1));
    }

    static lemma EmptyPool(cache: ArqCache)
      requires cache.Valid() && cache.Contents == map[]
      ensures cache.poolFree == POOL_SIZE
    {
      assert Buffered(cache.Contents) == {};
    }

    method FreeBySeq(q: byte)
      requires Valid()
      modifies Repr
      ensures Valid() && Contents == old(Contents) - {q} && window == old(window)
    {
      assert SlotOk(q);
      if !slots[q].inUse {
        assert Contents - {q} == Contents;
        return;
      }
      Release(q);
      label Released:
      slots[q] := EMPTY_SLOT;
      forall p: byte
        ensures SlotOk(p)
      {
        assert p != q ==> old@Released(SlotOk(p));
      }
    }

    method PeekForRetx(q: byte) returns (found: bool, buf: seq<byte>)
      requires Valid()
      ensures found <==> q in Contents && Contents[q] != []
      ensures buf == if found then Contents[q] else []
    {
      assert SlotOk(q);
      var s := slots[q];
      if !s.inUse || s.poolIdx >= POOL_SIZE || s.len == 0 {
        return false, [];
      }
      found := true;
      buf := seq(s.len, k requires 0 <= k < s.len && Shape() && s.len <= POOL_BUF_MAX reads this, pool => pool[s.poolIdx, k]);
    }

    method SlotInUse(q: byte) returns (b: bool)
      requires Valid()
      ensures b <==> q in Contents
    {
      assert SlotOk(q);
      b := slots[q].inUse;
    }

    method HasRoom() returns (b: bool)
      requires Valid()
      ensures b <==> |Contents| < SLOTS && |Buffered(Contents)| < POOL_SIZE
    {
      b := pendingCount < SLOTS && poolFree > 0;
    }

    method FreeRoom() returns (n: int)
      requires Valid()
      ensures n == if SLOTS - |Contents| < POOL_SIZE - |Buffered(Contents)|
                   then SLOTS - |Contents| else POOL_SIZE - |Buffered(Contents)|
    {
      var free := SLOTS - pendingCount;
      n := if free < poolFree then free else poolFree;
    }

    method ClearAll()
      requires Valid()
      modifies Repr
      ensures Valid() && Contents == map[] && window == old(window)
    {
      var i := 0;
      while i < SLOTS
        invariant 0 <= i <= SLOTS && Shape() && unchanged(this)
        invariant forall j :: 0 <= j < i ==> slots[j] == EMPTY_SLOT
      {
        slots[i] := EMPTY_SLOT;
        i := i + 1;
      }
      i := 0;
      while i < POOL_SIZE
        invariant 0 <= i <= POOL_SIZE && Shape() && unchanged(this)
        invariant forall j :: 0 <= j < SLOTS ==> slots[j] == EMPTY_SLOT
        invariant forall j :: 0 <= j < i ==> !poolUsed[j]
      {
        poolUsed[i] := false;
        i := i + 1;
      }
      pendingCount, poolFree := 0, POOL_SIZE;
      Contents := map[];
      CountTrueNone(poolUsed[..]);
      assert Buffered(Contents) == {};
    }

    method SetWindow(w: int)
      requires Valid()
      modifies this`window
      ensures Valid() && (1 <= w <= windowMax ==> window == w)
      ensures w < 1 <= windowMax ==> window == 1
      ensures w > windowMax || windowMax < 1 ==> window == windowMax
    {
      var v := w;
      if v < 1 {
        v := 1;
      }
      if v > windowMax {
        v := windowMax;
      }
      window := v;
    }
  }
}
