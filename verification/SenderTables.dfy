/**
  What the sender's two tables say: the 64 slots are the image of the window under `seq % 64`, the cache is the
  window's chunks byte for byte; and how each step of a handler keeps it so.
 */
module SenderTables {
  import opened Wire
  import opened SeqSpace
  import opened GoBackN
  import A = Arq
  import C = Cache
  import L = Ladder

  /** Which of the 64 slots the `count` chunks from `base` on occupy. */
  ghost function Flags(base: nat, count: nat): (f: seq<bool>)
    ensures |f| == BUDGET
  {
    if count == 0 then seq(BUDGET, _ => false) else Flags(base, count - 1)[SlotOf(base + count - 1) := true]
  }

  /** The bytes of the chunks from `base` on, keyed on their wire sequence. */
  ghost function Copies(chunks: seq<seq<byte>>, base: nat): map<byte, seq<byte>>
    decreases |chunks| - base
  {
    if base >= |chunks| then map[] else Copies(chunks, base + 1)[SeqOf(base) := chunks[base]]
  }

  /** The slot table is the image of the window, one pending slot a chunk. */
  ghost predicate SlotsAgree(slots: seq<A.ArqSlot>, tx: Tx) {
    && |slots| == BUDGET
    && tx.Valid()
    && (forall i :: 0 <= i < BUDGET ==> slots[i].pending == Flags(tx.base, tx.Pending())[i])
    && A.CountPending(slots) == tx.Pending()
  }

  /** The cache holds a byte-exact copy of each pending chunk and nothing else. */
  ghost predicate CacheAgrees(m: map<byte, seq<byte>>, tx: Tx) {
    && tx.Valid()
    && m == Copies(tx.chunks, tx.base)
    && |m| == |C.Buffered(m)| == tx.Pending()
  }

  ghost predicate ChunksOk(tx: Tx) {
    forall n :: 0 <= n < |tx.chunks| ==> 1 <= |tx.chunks[n]| <= MAX_CHUNK
  }

  // ----- what the two tables say -----

  lemma {:induction false} FlagsAreImage(base: nat, count: nat, i: nat)
    requires i < BUDGET
    ensures Flags(base, count)[i] <==> exists n: nat :: base <= n < base + count && SlotOf(n) == i
  {
    if count > 0 {
      FlagsAreImage(base, count - 1, i);
      if SlotOf(base + count - 1) == i {
        assert base <= base + count - 1 < base + count;
      }
    }
  }

  lemma {:induction false} CopiesAreExact(chunks: seq<seq<byte>>, base: nat)
    requires |chunks| <= base + WINDOW
    ensures forall n: nat :: base <= n < |chunks| ==>
      SeqOf(n) in Copies(chunks, base) && Copies(chunks, base)[SeqOf(n)] == chunks[n]
    ensures forall q: byte :: q in Copies(chunks, base) ==> exists n: nat :: base <= n < |chunks| && SeqOf(n) == q
    decreases |chunks| - base
  {
    if base < |chunks| {
      CopiesAreExact(chunks, base + 1);
      forall n: nat | base < n < |chunks|
        ensures SeqOf(n) != SeqOf(base)
      {
        if SeqOf(n) == SeqOf(base) { SeqOfInjective(base, n); }
      }
      forall q: byte | q in Copies(chunks, base)
        ensures exists n: nat :: base <= n < |chunks| && SeqOf(n) == q
      {
        if q == SeqOf(base) {
          assert base <= base < |chunks|;
        } else {
          assert q in Copies(chunks, base + 1);
          var n: nat :| base + 1 <= n < |chunks| && SeqOf(n) == q;
          assert base <= n < |chunks| && SeqOf(n) == q;
        }
      }
    }
  }

  // ----- freeing the first chunk -----

  lemma {:induction false} FlagsDropFirst(base: nat, count: nat)
    requires 1 <= count <= WINDOW
    ensures Flags(base + 1, count - 1) == Flags(base, count)[SlotOf(base) := false]
  {
    if count > 1 {
      FlagsDropFirst(base, count - 1);
      if SlotOf(base + count - 1) == SlotOf(base) { SlotInjective(base, base + count - 1); }
    } else {
      assert Flags(base, 0)[SlotOf(base) := true][SlotOf(base) := false] == Flags(base, 0);
    }
  }

  lemma FreeFirstSlot(slots: seq<A.ArqSlot>, tx: Tx, v: A.ArqSlot)
    requires SlotsAgree(slots, tx) && tx.Pending() > 0 && !v.pending
    ensures SlotsAgree(slots[SlotOf(tx.base) := v], tx.(base := tx.base + 1))
  {
    FlagsDropFirst(tx.base, tx.Pending());
    FlagsAreImage(tx.base, tx.Pending(), SlotOf(tx.base));
    A.CountPendingUpdate(slots, SlotOf(tx.base), v);
  }

  lemma FreeFirstCached(m: map<byte, seq<byte>>, tx: Tx)
    requires CacheAgrees(m, tx) && ChunksOk(tx) && tx.Pending() > 0
    ensures CacheAgrees(m - {SeqOf(tx.base)}, tx.(base := tx.base + 1))
  {
    var f, rest := SeqOf(tx.base), Copies(tx.chunks, tx.base + 1);
    CopiesAreExact(tx.chunks, tx.base + 1);
    if f in rest {
      var n: nat :| tx.base + 1 <= n < |tx.chunks| && SeqOf(n) == f;
      SeqOfInjective(tx.base, n);
    }
    assert m - {f} == rest;
    C.BufferedRemove(m, f);
  }

  // ----- adding a chunk at the end -----

  lemma TakeSlot(slots: seq<A.ArqSlot>, tx: Tx, payload: seq<byte>, v: A.ArqSlot)
    requires SlotsAgree(slots, tx) && tx.Pending() < WINDOW && v.pending
    ensures SlotsAgree(slots[SlotOf(|tx.chunks|) := v], tx.(chunks := tx.chunks + [payload]))
  {
    var f := SlotOf(|tx.chunks|);
    FlagsAreImage(tx.base, tx.Pending(), f);
    if slots[f].pending {
      var n: nat :| tx.base <= n < |tx.chunks| && SlotOf(n) == f;
      SlotInjective(n, |tx.chunks|);
    }
    A.CountPendingUpdate(slots, f, v);
  }

  lemma {:induction false} CopiesSnoc(chunks: seq<seq<byte>>, base: nat, payload: seq<byte>)
    requires base <= |chunks| < base + WINDOW
    ensures SeqOf(|chunks|) !in Copies(chunks, base)
    ensures Copies(chunks + [payload], base) == Copies(chunks, base)[SeqOf(|chunks|) := payload]
    decreases |chunks| - base
  {
    var all := chunks + [payload];
    if base == |chunks| {
      assert Copies(all, base) == Copies(all, base + 1)[SeqOf(base) := payload];
    } else {
      CopiesSnoc(chunks, base + 1, payload);
      if SeqOf(base) == SeqOf(|chunks|) { SeqOfInjective(base, |chunks|); }
      assert Copies(all, base) == Copies(all, base + 1)[SeqOf(base) := chunks[base]];
    }
  }

  lemma AddCached(m: map<byte, seq<byte>>, tx: Tx, payload: seq<byte>)
    requires CacheAgrees(m, tx) && tx.Pending() < WINDOW && payload != []
    ensures SeqOf(|tx.chunks|) !in m
    ensures CacheAgrees(m[SeqOf(|tx.chunks|) := payload], tx.(chunks := tx.chunks + [payload]))
  {
    CopiesSnoc(tx.chunks, tx.base, payload);
    C.BufferedInsert(m, SeqOf(|tx.chunks|), payload);
  }

  /** The pending chunk a byte names is the one that carries it on the wire, and the only one. */
  lemma NamesOnly(tx: Tx, q: byte)
    requires tx.Valid()
    ensures forall n: nat :: tx.base <= n < |tx.chunks| && SeqOf(n) == q ==> tx.Names(q) == Some(n)
    ensures tx.Names(q).Some? ==>
      tx.base <= tx.Names(q).value < |tx.chunks| && SeqOf(tx.Names(q).value) == q
  {
    forall n: nat | tx.base <= n < |tx.chunks| && SeqOf(n) == q
      ensures tx.Names(q) == Some(n)
    {
      PendingNoExact(tx.base, tx.Pending(), q, n);
    }
    if tx.Names(q).Some? { PendingNoExact(tx.base, tx.Pending(), q, tx.Names(q).value); }
  }

  // ----- freeing a prefix of the window -----

  /** The slots after the chunks from `base` on have been freed one by one, each with its byte count. */
  ghost function Freed(slots: seq<A.ArqSlot>, base: nat, bytes: seq<uint16>): (r: seq<A.ArqSlot>)
    requires |slots| == BUDGET
    ensures |r| == BUDGET
  {
    if bytes == [] then slots
    else
      var k := |bytes| - 1;
      var s, i := Freed(slots, base, bytes[..k]), SlotOf(base + k);
      s[i := A.Acked(s[i], bytes[k])]
  }

  lemma FreedSnoc(slots: seq<A.ArqSlot>, base: nat, bytes: seq<uint16>, b: uint16)
    requires |slots| == BUDGET
    ensures var s, i := Freed(slots, base, bytes), SlotOf(base + |bytes|);
      Freed(slots, base, bytes + [b]) == s[i := A.Acked(s[i], b)]
  {
    assert (bytes + [b])[..|bytes|] == bytes;
  }

  lemma NoneFreed(slots: seq<A.ArqSlot>, base: nat, bytes: seq<uint16>)
    requires |slots| == BUDGET
    ensures Freed(slots, base, bytes[..0]) == slots
  {
  }

  lemma NothingFreed(slots: seq<A.ArqSlot>, base: nat)
    requires |slots| == BUDGET
    ensures Freed(slots, base, Zeros(0)) == slots
  {
  }

  lemma OneFreed(slots: seq<A.ArqSlot>, base: nat, bytes: seq<uint16>, k: nat)
    requires |slots| == BUDGET && k < |bytes|
    ensures var s, i := Freed(slots, base, bytes[..k]), SlotOf(base + k);
      Freed(slots, base, bytes[..k + 1]) == s[i := A.Acked(s[i], bytes[k])]
  {
    FreedSnoc(slots, base, bytes[..k], bytes[k]);
    assert bytes[..k] + [bytes[k]] == bytes[..k + 1];
  }

  /** Each chunk freed has its slot released with its own count; the slots of the chunks behind them stand. */
  lemma {:induction false} FreedAt(slots: seq<A.ArqSlot>, base: nat, bytes: seq<uint16>, m: nat)
    requires |slots| == BUDGET && |bytes| <= WINDOW && m < WINDOW
    ensures var i := SlotOf(base + m);
      Freed(slots, base, bytes)[i] ==
        if m < |bytes| then slots[i].(pending := false, retxCount := 0, nakCount := 0, bytesRecvd := bytes[m]) else slots[i]
  {
    if bytes != [] {
      var k := |bytes| - 1;
      FreedAt(slots, base, bytes[..k], m);
      if m < k && SlotOf(base + m) == SlotOf(base + k) { SlotInjective(base + m, base + k); }
      if k < m && SlotOf(base + m) == SlotOf(base + k) { SlotInjective(base + k, base + m); }
    }
  }

  /** What an ACK of `bytes` for chunk `n` records: the chunks' own lengths up to it, and its own count for it. */
  ghost function AckCounts(chunks: seq<seq<byte>>, base: nat, n: nat, bytes: uint16): (r: seq<uint16>)
    requires base <= n < |chunks| && forall k :: base <= k < n ==> |chunks[k]| < 0x1_0000
    ensures |r| == n + 1 - base
  {
    seq(n + 1 - base, i requires 0 <= i < n + 1 - base => if i == n - base then bytes else |chunks[base + i]|)
  }

  ghost function Zeros(k: nat): (r: seq<uint16>)
    ensures |r| == k
  {
    seq(k, _ => 0)
  }

  /** One of the chunks from `from` up to `to` carries sequence `q`. */
  ghost predicate Among(from: nat, to: nat, q: byte) {
    exists k: nat :: from <= k < to && SeqOf(k) == q
  }

  lemma AmongSnoc(from: nat, to: nat, q: byte)
    requires from <= to
    ensures Among(from, to + 1, q) <==> Among(from, to, q) || SeqOf(to) == q
  {
    if SeqOf(to) == q { assert from <= to < to + 1; }
    if Among(from, to, q) {
      var k: nat :| from <= k < to && SeqOf(k) == q;
      assert from <= k < to + 1;
    }
  }

  lemma NotAmong(from: nat, q: byte)
    ensures !Among(from, from, q)
  {
  }

  /** The chunk that an ACK names is among those it frees. */
  lemma AckedIsAmong(tx: Tx, q: byte)
    ensures forall n: nat :: tx.base <= n < |tx.chunks| && SeqOf(n) == q ==> Among(tx.base, n + 1, q)
  {
  }

  /** The lap moves on with every 254th chunk. */
  lemma LapStep(n: nat, lap: byte)
    ensures (lap + (n + 1) / SEQ_SPACE - n / SEQ_SPACE) % 256 == if SeqOf(n) == SEQ_MAX then (lap + 1) % 256 else lap
  {
    var k, r := n / SEQ_SPACE, n % SEQ_SPACE;
    assert n == k * SEQ_SPACE + r;
    if r == SEQ_MAX {
      assert n + 1 == (k + 1) * SEQ_SPACE;
    } else {
      assert n + 1 == k * SEQ_SPACE + (r + 1);
    }
  }

  // ----- replaying a prefix of the window -----

  /** The slots after the first `k` chunks from `base` on have been replayed. */
  ghost function Replayed(slots: seq<A.ArqSlot>, base: nat, k: nat, now: uint32, fromRto: bool): (r: seq<A.ArqSlot>)
    requires |slots| == BUDGET
    ensures |r| == BUDGET
  {
    if k == 0 || !fromRto then slots
    else
      var s, i := Replayed(slots, base, k - 1, now, fromRto), SlotOf(base + k - 1);
      s[i := L.Bumped(s[i], now)]
  }

  /** A replay frees nothing. */
  lemma {:induction false} ReplayKeepsTable(slots: seq<A.ArqSlot>, tx: Tx, k: nat, now: uint32, fromRto: bool)
    requires SlotsAgree(slots, tx)
    ensures SlotsAgree(Replayed(slots, tx.base, k, now, fromRto), tx)
  {
    if k > 0 && fromRto {
      ReplayKeepsTable(slots, tx, k - 1, now, fromRto);
      var s, i := Replayed(slots, tx.base, k - 1, now, fromRto), SlotOf(tx.base + k - 1);
      A.CountPendingUpdate(s, i, L.Bumped(s[i], now));
    }
  }

  /** A replay driven by an RTO bumps each replayed chunk's slot once and no other chunk's; one driven by a NAK bumps none. */
  lemma {:induction false} ReplayedAt(slots: seq<A.ArqSlot>, base: nat, k: nat, now: uint32, fromRto: bool, m: nat)
    requires |slots| == BUDGET && k <= WINDOW && m < WINDOW
    ensures var i := SlotOf(base + m);
      Replayed(slots, base, k, now, fromRto)[i] ==
        if fromRto && m < k
        then slots[i].(sentAtMs := now, retxCount := if slots[i].retxCount < 255 then slots[i].retxCount + 1 else 255)
        else slots[i]
  {
    if k > 0 && fromRto {
      ReplayedAt(slots, base, k - 1, now, fromRto, m);
      if m < k - 1 && SlotOf(base + m) == SlotOf(base + k - 1) { SlotInjective(base + m, base + k - 1); }
      if k - 1 < m && SlotOf(base + m) == SlotOf(base + k - 1) { SlotInjective(base + k - 1, base + m); }
    }
  }

  /** With agreeing tables the two tests of `onAck` and `onNak` accept a byte exactly when it names a pending chunk. */
  lemma TestsAreExact(slots: seq<A.ArqSlot>, tx: Tx, q: byte)
    requires SlotsAgree(slots, tx)
    ensures slots[BudgetIdx(q)].pending && IdxOf(q, SeqOf(tx.base)) >= 0 <==> tx.Names(q).Some?
    ensures slots[BudgetIdx(q)].pending ==> tx.Pending() > 0
    ensures tx.Names(q).Some? ==>
      tx.base <= tx.Names(q).value < |tx.chunks| && SeqOf(tx.Names(q).value) == q
  {
    SlotAndIndexExact(tx.base, tx.Pending(), q);
    FlagsAreImage(tx.base, tx.Pending(), BudgetIdx(q));
    if tx.Names(q).Some? {
      PendingNoExact(tx.base, tx.Pending(), q, tx.Names(q).value);
    }
  }
}
