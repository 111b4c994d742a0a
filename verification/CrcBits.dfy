/** One byte through the CRC registers, as bit vectors. */
module CrcBits {
  import opened CrcTables

  // ----- the bit-serial definition -----

  function Xor(a: bv16, b: bv16): bv16 { a ^ b }

  function High(b: bv8): bv16 { b as bv16 << 8 }

  function Shift8(c: bv8): bv8 {
    if c & 0x80 != 0 then (c << 1) ^ 0x07 else c << 1
  }

  /** Eight shifts: the register after one more byte has been folded in. */
  function Byte8(c: bv8): bv8 {
    Shift8(Shift8(Shift8(Shift8(Shift8(Shift8(Shift8(Shift8(c))))))))
  }

  /** One left shift; the bit shifted out is added at the positions 12, 5 and 0 of the polynomial. */
  function Shift16(c: bv16): bv16 {
    (c << 1) ^ ((c >> 15) << 12) ^ ((c >> 15) << 5) ^ (c >> 15)
  }

  function Byte16(c: bv16): bv16 {
    Shift16(Shift16(Shift16(Shift16(Shift16(Shift16(Shift16(Shift16(c))))))))
  }

  function Fold8(c: bv8, b: bv8): bv8 { Byte8(c ^ b) }

  function Fold16(c: bv16, b: bv8): bv16 { Byte16(Xor(c, High(b))) }

  // ----- the tables -----

  lemma TableStep8(c: bv8)
    ensures Lut8(c) == Byte8(c)
  {
  }

  lemma TableStep16(i: bv8)
    ensures Lut16(i) == Byte16(High(i))
  {
  }

  // ----- the 16-bit step is linear -----

  lemma ShiftOfXor(a: bv16, b: bv16)
    ensures Shift16(a ^ b) == Shift16(a) ^ Shift16(b)
  {
  }

  lemma XorIs(a: bv16, b: bv16)
    ensures Xor(a, b) == a ^ b
  {
  }

  lemma Shift16Linear(a: bv16, b: bv16)
    ensures Shift16(Xor(a, b)) == Xor(Shift16(a), Shift16(b))
  {
    XorIs(a, b);
    XorIs(Shift16(a), Shift16(b));
    ShiftOfXor(a, b);
  }

  lemma Byte16Linear(a: bv16, b: bv16)
    ensures Byte16(Xor(a, b)) == Xor(Byte16(a), Byte16(b))
  {
    var a1, b1 := Shift16(a), Shift16(b);
    var a2, b2 := Shift16(a1), Shift16(b1);
    var a3, b3 := Shift16(a2), Shift16(b2);
    var a4, b4 := Shift16(a3), Shift16(b3);
    var a5, b5 := Shift16(a4), Shift16(b4);
    var a6, b6 := Shift16(a5), Shift16(b5);
    var a7, b7 := Shift16(a6), Shift16(b6);
    Shift16Linear(a, b);
    Shift16Linear(a1, b1);
    Shift16Linear(a2, b2);
    Shift16Linear(a3, b3);
    Shift16Linear(a4, b4);
    Shift16Linear(a5, b5);
    Shift16Linear(a6, b6);
    Shift16Linear(a7, b7);
  }

  lemma LowByteMovesUp(l: bv8)
    ensures Byte16(l as bv16) == High(l)
  {
  }

  lemma SplitBytes(c: bv16, b: bv8)
    ensures Xor(c, High(b)) == Xor(High((c >> 8) as bv8 ^ b), (c & 0xFF) as bv8 as bv16)
    ensures Xor(Lut16((c >> 8) as bv8 ^ b), High((c & 0xFF) as bv8)) == (c << 8) ^ Lut16((c >> 8) as bv8 ^ b)
  {
    JoinBytes(c, Lut16((c >> 8) as bv8 ^ b));
  }

  lemma JoinBytes(c: bv16, t: bv16)
    ensures Xor(t, High((c & 0xFF) as bv8)) == (c << 8) ^ t
  {
  }

  /** Only the high byte of the register feeds the polynomial; the low byte moves up. */
  lemma TableFold16(c: bv16, b: bv8)
    ensures Fold16(c, b) == (c << 8) ^ Lut16((c >> 8) as bv8 ^ b)
  {
    var h, l := (c >> 8) as bv8 ^ b, (c & 0xFF) as bv8;
    SplitBytes(c, b);
    Byte16Linear(High(h), l as bv16);
    LowByteMovesUp(l);
    TableStep16(h);
  }

  // ----- folding loses nothing -----

  lemma Byte8Injective(c: bv8, d: bv8)
    requires Byte8(c) == Byte8(d)
    ensures c == d
  {
  }

  lemma XorCancel8(c: bv8, d: bv8, a: bv8, b: bv8)
    requires c ^ a == d ^ b
    ensures c == d <==> a == b
  {
  }

  /** Folding is injective in the register for a fixed byte and in the byte for a fixed register. */
  lemma Fold8Injective(c: bv8, d: bv8, a: bv8, b: bv8)
    requires Fold8(c, a) == Fold8(d, b)
    ensures c == d <==> a == b
  {
    Byte8Injective(c ^ a, d ^ b);
    XorCancel8(c, d, a, b);
  }

  lemma OnlyZeroVanishes(c: bv16)
    requires Byte16(c) == 0
    ensures c == 0
  {
  }

  lemma XorSelf(c: bv16)
    ensures Xor(c, c) == 0
  {
  }

  lemma XorZero(c: bv16, d: bv16)
    requires Xor(c, d) == 0
    ensures c == d
  {
  }

  lemma Byte16Injective(c: bv16, d: bv16)
    requires Byte16(c) == Byte16(d)
    ensures c == d
  {
    Byte16Linear(c, d);
    XorSelf(Byte16(c));
    OnlyZeroVanishes(Xor(c, d));
    XorZero(c, d);
  }

  lemma XorCancel(c: bv16, d: bv16, e: bv16)
    ensures Xor(c, e) == Xor(d, e) <==> c == d
  {
  }

  lemma Fold16Injective(c: bv16, d: bv16, b: bv8)
    requires Fold16(c, b) == Fold16(d, b)
    ensures c == d
  {
    Byte16Injective(Xor(c, High(b)), Xor(d, High(b)));
    XorCancel(c, d, High(b));
  }

  lemma HighBytesOnly(c: bv16, d: bv16, b: bv8, b': bv8)
    requires Xor(c, High(b)) == Xor(d, High(b'))
    ensures Xor(c, d) & 0xFF == 0
    ensures c == d ==> b == b'
  {
  }

  lemma XorOfHighs(c: bv16, a: bv8, a': bv8)
    ensures Xor(Xor(c, High(a)), Xor(c, High(a'))) == High(a ^ a')
  {
  }

  /** A nonzero high byte always reaches the low byte of the register. */
  lemma HighByteReachesLow(e: bv8)
    requires Byte16(High(e)) & 0xFF == 0
    ensures e == 0
  {
  }

  lemma XorZero8(a: bv8, b: bv8)
    ensures a ^ b == 0 <==> a == b
  {
  }

  /** Two bytes folded into one register are determined by the result. */
  lemma Fold16Twice(c: bv16, a: bv8, b: bv8, a': bv8, b': bv8)
    requires Fold16(Fold16(c, a), b) == Fold16(Fold16(c, a'), b')
    ensures a == a' && b == b'
  {
    var x, y := Xor(c, High(a)), Xor(c, High(a'));
    Byte16Injective(Xor(Byte16(x), High(b)), Xor(Byte16(y), High(b')));
    HighBytesOnly(Byte16(x), Byte16(y), b, b');
    Byte16Linear(x, y);
    XorOfHighs(c, a, a');
    HighByteReachesLow(a ^ a');
    XorZero8(a, a');
  }
}
