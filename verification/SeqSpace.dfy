/**
  The wire's 254-value sequence space and the two tables keyed on it: the go-back-N window
  (distance from the base, modulo 254) and the 64-entry slot table (sequence modulo 64).
  The unbounded numbers here count chunks from the start of a session; the wire only ever
  carries `SeqOf` of them.
 */
module SeqSpace {
  import opened Wire

  const SEQ_SPACE: int := 254
  const SEQ_MAX: int := 253
  const WINDOW: int := 32
  const BUDGET: int := 64

  function SeqOf(n: nat): byte { n % SEQ_SPACE }

  /** `s == COBS_SEQ_MAX ? 0 : (uint8_t)(s + 1)`. */
  function NextSeq(q: byte): byte { if q == SEQ_MAX || q == 0xFF then 0 else q + 1 }

  function BudgetIdx(q: byte): (i: nat)
    ensures i < BUDGET
  {
    q % BUDGET
  }

  function SlotOf(n: nat): (i: nat)
    ensures i < BUDGET
  {
    BudgetIdx(SeqOf(n))
  }

  /** How far `q` is ahead of `base` on the 254-value circle. */
  function Ahead(q: byte, base: byte): int {
    var d := q - base;
    if d < 0 then d + SEQ_SPACE else d
  }

  /** Distance of `q` from the window base, or -1 outside the window. */
  function IdxOf(q: byte, base: byte): int {
    var d := Ahead(q, base);
    if d < WINDOW then d else -1
  }

  lemma SeqOfStep(n: nat)
    ensures SeqOf(n + 1) == NextSeq(SeqOf(n))
  {
    var k, r := n / SEQ_SPACE, n % SEQ_SPACE;
    assert n == k * SEQ_SPACE + r;
    if r == SEQ_MAX {
      assert n + 1 == (k + 1) * SEQ_SPACE;
    } else {
      assert n + 1 == k * SEQ_SPACE + (r + 1);
    }
  }

  /** Fewer than 254 numbers apart, equal wire sequences mean equal chunks. */
  lemma SeqOfInjective(m: nat, n: nat)
    requires m <= n < m + SEQ_SPACE
    requires SeqOf(m) == SeqOf(n)
    ensures m == n
  {
    assert n - m == (n / SEQ_SPACE - m / SEQ_SPACE) * SEQ_SPACE;
  }

  /** A walk over the circle from chunk `b` meets the sequence of chunk `n` exactly when it meets `n`. */
  lemma WalkStep(b: nat, n: nat)
    requires b <= n < b + SEQ_SPACE
    ensures SeqOf(b) == SeqOf(n) <==> b == n
    ensures SeqOf(b + 1) == NextSeq(SeqOf(b))
  {
    if SeqOf(b) == SeqOf(n) { SeqOfInjective(b, n); }
    SeqOfStep(b);
  }

  /** Every run of at most 62 consecutive chunks occupies distinct slots, across the 253 -> 0 wrap too. */
  lemma SlotInjective(m: nat, n: nat)
    requires m <= n < m + 62
    requires SlotOf(m) == SlotOf(n)
    ensures m == n
  {
    var dm, dn := m / SEQ_SPACE, n / SEQ_SPACE;
    var rm, rn := m % SEQ_SPACE, n % SEQ_SPACE;
    assert rm == rn + BUDGET * (rm / BUDGET - rn / BUDGET);
    assert dm == dn || dm + 1 == dn;
  }

  /** No two chunks of any run of `len` consecutive chunks share a slot. */
  ghost predicate RunFits(len: nat) {
    forall m: nat, n: nat :: m <= n < m + len && SlotOf(m) == SlotOf(n) ==> m == n
  }

  /** 62 is exact: 254 leaves remainder 62 modulo 64, so chunk 253 and chunk 315 share slot 61. */
  lemma RunFitsExactly(len: nat)
    ensures RunFits(len) <==> len <= 62
  {
    if len <= 62 {
      forall m: nat, n: nat | m <= n < m + len && SlotOf(m) == SlotOf(n)
        ensures m == n
      {
        SlotInjective(m, n);
      }
    } else {
      assert SlotOf(253) == 61 && SlotOf(315) == 61;
      assert 253 <= 315 < 253 + len;
    }
  }

  /** The pending chunk, among `count` chunks from `base` on, that the wire sequence `q` names. */
  function PendingNo(base: nat, count: nat, q: byte): Option<nat> {
    var d := Ahead(q, SeqOf(base));
    if q < SEQ_SPACE && 0 <= d < count then Some(base + d) else None
  }

  /** PendingNo finds the chunk, and the only one, whose wire sequence is `q`. */
  lemma PendingNoExact(base: nat, count: nat, q: byte, n: nat)
    requires count <= SEQ_SPACE
    ensures PendingNo(base, count, q) == Some(n) <==> base <= n < base + count && SeqOf(n) == q
  {
    var d := Ahead(q, SeqOf(base));
    if q < SEQ_SPACE {
      assert SeqOf(base + d) == q by {
        var k := base / SEQ_SPACE;
        assert base == k * SEQ_SPACE + SeqOf(base);
        if q >= SeqOf(base) {
          assert d == q - SeqOf(base);
          assert base + d == k * SEQ_SPACE + q;
        } else {
          assert d == q - SeqOf(base) + SEQ_SPACE;
          assert base + d == (k + 1) * SEQ_SPACE + q;
        }
      }
      if base <= n < base + count && SeqOf(n) == q {
        if n <= base + d { SeqOfInjective(n, base + d); } else { SeqOfInjective(base + d, n); }
      }
    }
  }

  /**
    The two tests `isPending` (slot `q % 64`) and `idxOf` (distance modulo 254) together accept a byte
    exactly when it names a pending chunk, for every byte, including 254 and 255 which are not sequences.
   */
  lemma SlotAndIndexExact(base: nat, count: nat, q: byte)
    requires count <= WINDOW
    ensures (IdxOf(q, SeqOf(base)) >= 0 && exists n :: base <= n < base + count && SlotOf(n) == BudgetIdx(q))
      <==> PendingNo(base, count, q).Some?
    ensures PendingNo(base, count, q).Some? ==> PendingNo(base, count, q) == Some(base + IdxOf(q, SeqOf(base)))
  {
    var bs := SeqOf(base);
    var d := Ahead(q, bs);
    if PendingNo(base, count, q).Some? {
      PendingNoExact(base, count, q, base + d);
      assert SlotOf(base + d) == BudgetIdx(q);
      assert IdxOf(q, bs) == d;
    } else if IdxOf(q, bs) >= 0 {
      var e := IdxOf(q, bs);
      forall n | base <= n < base + count && SlotOf(n) == BudgetIdx(q)
        ensures false
      {
        if q < SEQ_SPACE {
          assert e == d;
          PendingNoExact(base, WINDOW, q, base + e);
          SlotInjective(n, base + e);
        } else {
          ReservedNotPending(base, q, n);
        }
      }
    }
  }

  /** Near the top of the sequence space the slots of 254 and 255 stay empty. */
  lemma ReservedNotPending(base: nat, q: byte, n: nat)
    requires SEQ_SPACE <= q && IdxOf(q, SeqOf(base)) >= 0
    requires base <= n < base + WINDOW
    ensures SlotOf(n) != BudgetIdx(q)
  {
    var k, bs := base / SEQ_SPACE, SeqOf(base);
    assert base == k * SEQ_SPACE + bs;
    assert 222 <= bs;
    if n < (k + 1) * SEQ_SPACE {
      assert n == k * SEQ_SPACE + (n - k * SEQ_SPACE);
      assert 222 <= SeqOf(n) == n - k * SEQ_SPACE < 254;
    } else {
      assert n == (k + 1) * SEQ_SPACE + (n - (k + 1) * SEQ_SPACE);
      assert SeqOf(n) == n - (k + 1) * SEQ_SPACE < 32;
    }
  }

  datatype GapClass = Forward | Stale | Gap

  /** The class of an arriving sequence and the distance `diff` it was decided on. */
  function ClassifyGap(cobsSeq: byte, rxSeq: byte, rxSeqSet: bool): (GapClass, int) {
    if !rxSeqSet then (Forward, 0)
    else
      var expected := NextSeq(rxSeq);
      if cobsSeq == expected then (Forward, 0)
      else
        var diff := Ahead(cobsSeq, rxSeq);
        (if diff == 0 || diff > SEQ_SPACE / 2 then Stale else Gap, diff)
  }

  /** A stale frame close enough behind the cursor to be a duplicate for certain. */
  predicate GenuineDup(diff: int) {
    diff == 0 || SEQ_SPACE - diff <= 2 * WINDOW
  }

  /** The value `rxSeq` holds once chunks 0..next have been accepted; 253 is the session's seed. */
  function CursorOf(next: nat): byte { (next + SEQ_MAX) % SEQ_SPACE }

  lemma CursorOfNext(next: nat)
    ensures CursorOf(next + 1) == SeqOf(next)
    ensures NextSeq(CursorOf(next)) == SeqOf(next)
  {
    assert next + 1 + SEQ_MAX == next + SEQ_SPACE;
    SeqOfStep(next + SEQ_MAX);
  }

  /** Which side of the cursor chunk `n` is on. */
  function TrueClass(n: nat, next: nat): GapClass {
    if n == next then Forward else if n < next then Stale else Gap
  }

  /**
    The modular classification agrees with the true order exactly on the band of 254 chunks from 127 behind
    the cursor to 126 ahead of it, and calls a stale chunk a genuine duplicate exactly when it is at most 65 behind.
   */
  lemma ClassifyExact(n: nat, next: nat)
    requires n < next + SEQ_SPACE && next < n + SEQ_SPACE
    ensures var (c, diff) := ClassifyGap(SeqOf(n), CursorOf(next), true);
      && (c == TrueClass(n, next) <==> -127 <= n - next <= 126)
      && (-127 <= n - next < 0 ==> (GenuineDup(diff) <==> next <= n + 65))
  {
    var k, r := next / SEQ_SPACE, next % SEQ_SPACE;
    assert next == k * SEQ_SPACE + r;
    var cur := CursorOf(next);
    assert cur == if r == 0 then SEQ_MAX else r - 1 by {
      if r == 0 { assert next + SEQ_MAX == k * SEQ_SPACE + SEQ_MAX; }
      else { assert next + SEQ_MAX == (k + 1) * SEQ_SPACE + (r - 1); }
    }
    var e := r + (n - next);
    var s := if e < 0 then e + SEQ_SPACE else if e >= SEQ_SPACE then e - SEQ_SPACE else e;
    var j := if e < 0 then k - 1 else if e >= SEQ_SPACE then k + 1 else k;
    assert n == j * SEQ_SPACE + s;
    assert 0 <= s < SEQ_SPACE;
    assert SeqOf(n) == s;
  }
}
