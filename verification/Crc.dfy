/** CRC-8 (polynomial 0x07, initial value 0) and CRC-16 (polynomial 0x1021, initial value 0xFFFF) of byte strings. */
module Crc {
  import opened Wire
  import opened CrcTables
  import opened CrcBits

  /** The register after the bytes of `s` have been folded in one after the other. */
  function Register<S>(fold: (S, bv8) -> S, init: S, s: seq<bv8>): S {
    if s == [] then init else fold(Register(fold, init, s[..|s| - 1]), s[|s| - 1])
  }

  function Bits(s: seq<byte>): seq<bv8> {
    seq(|s|, i requires 0 <= i < |s| => s[i] as bv8)
  }

  function Crc8(s: seq<byte>): byte { Register(Fold8, 0, Bits(s)) as int }

  function Crc16(s: seq<byte>): uint16 { Register(Fold16, 0xFFFF, Bits(s)) as int }

  // ----- the table loops -----

  lemma BitsSnoc(s: seq<byte>, i: nat)
    requires i < |s|
    ensures Bits(s[..i + 1]) == Bits(s[..i]) + [s[i] as bv8]
  {
  }

  lemma RegisterSnoc<S>(fold: (S, bv8) -> S, init: S, s: seq<byte>, i: nat)
    requires i < |s|
    ensures Register(fold, init, Bits(s[..i + 1])) == fold(Register(fold, init, Bits(s[..i])), s[i] as bv8)
  {
    BitsSnoc(s, i);
    assert Bits(s[..i + 1])[..i] == Bits(s[..i]);
  }

  lemma RegisterEmpty<S>(fold: (S, bv8) -> S, init: S)
    ensures Register(fold, init, []) == init
  {
  }

  method Crc8Loop(data: seq<byte>) returns (crc: byte)
    ensures crc == Crc8(data)
  {
    var c: bv8 := 0;
    for i := 0 to |data|
      invariant c == Register(Fold8, 0, Bits(data[..i]))
    {
      RegisterSnoc(Fold8, 0, data, i);
      TableStep8(c ^ (data[i] as bv8));
      c := Lut8(c ^ (data[i] as bv8));
    }
    assert data[..|data|] == data;
    crc := c as int;
  }

  method Crc16Loop(data: seq<byte>) returns (crc: uint16)
    ensures crc == Crc16(data)
  {
    var c: bv16 := 0xFFFF;
    for i := 0 to |data|
      invariant c == Register(Fold16, 0xFFFF, Bits(data[..i]))
    {
      var b := data[i] as bv8;
      RegisterSnoc(Fold16, 0xFFFF, data, i);
      TableFold16(c, b);
      c := (c << 8) ^ Lut16((c >> 8) as bv8 ^ b);
    }
    assert data[..|data|] == data;
    crc := c as int;
  }

  // ----- what the checksums detect -----

  /** Two strings of one length that differ, and only at positions i .. i + width - 1. */
  ghost predicate DifferWithin<T>(s: seq<T>, t: seq<T>, i: nat, width: nat) {
    && |s| == |t| && i + width <= |s|
    && s != t
    && forall k :: 0 <= k < |s| && !(i <= k < i + width) ==> s[k] == t[k]
  }

  ghost predicate InjectiveInState<S(!new)>(fold: (S, bv8) -> S) {
    forall c, d, b :: fold(c, b) == fold(d, b) ==> c == d
  }

  ghost predicate InjectiveInByte<S(!new)>(fold: (S, bv8) -> S) {
    forall c, a, b :: fold(c, a) == fold(c, b) ==> a == b
  }

  ghost predicate InjectiveInTwoBytes<S(!new)>(fold: (S, bv8) -> S) {
    forall c, a, b, a', b' :: fold(fold(c, a), b) == fold(fold(c, a'), b') ==> a == a' && b == b'
  }

  lemma {:induction false} RegisterDetectsByte<S(!new)>(fold: (S, bv8) -> S, init: S, s: seq<bv8>, t: seq<bv8>, i: nat)
    requires InjectiveInState(fold) && InjectiveInByte(fold) && DifferWithin(s, t, i, 1)
    ensures Register(fold, init, s) != Register(fold, init, t)
  {
    var n := |s| - 1;
    var p, q := s[..n], t[..n];
    assert s == p + [s[n]] && t == q + [t[n]];
    if i == n {
      assert p == q;
    } else {
      RegisterDetectsByte(fold, init, p, q, i);
    }
  }

  lemma {:induction false} RegisterDetectsTwoBytes<S(!new)>(fold: (S, bv8) -> S, init: S, s: seq<bv8>, t: seq<bv8>, i: nat)
    requires InjectiveInState(fold) && InjectiveInTwoBytes(fold) && DifferWithin(s, t, i, 2)
    ensures Register(fold, init, s) != Register(fold, init, t)
  {
    var n := |s| - 1;
    var p, q := s[..n], t[..n];
    assert s == p + [s[n]] && t == q + [t[n]];
    if i + 1 < n {
      RegisterDetectsTwoBytes(fold, init, p, q, i);
    } else {
      var u, v := p[..n - 1], q[..n - 1];
      assert u == v;
      assert p == u + [p[n - 1]] && q == v + [q[n - 1]];
      var c := Register(fold, init, u);
      assert Register(fold, init, s) == fold(fold(c, p[n - 1]), s[n]);
      assert Register(fold, init, t) == fold(fold(c, q[n - 1]), t[n]);
    }
  }

  /** A change confined to one byte of a message of any length changes its CRC-8. */
  lemma Crc8DetectsByte(s: seq<bv8>, t: seq<bv8>, i: nat)
    requires DifferWithin(s, t, i, 1)
    ensures Register(Fold8, 0, s) != Register(Fold8, 0, t)
  {
    forall c, d, a, b | Fold8(c, a) == Fold8(d, b)
      ensures c == d <==> a == b
    {
      Fold8Injective(c, d, a, b);
    }
    RegisterDetectsByte(Fold8, 0, s, t, i);
  }

  /** A change confined to two adjacent bytes of a message of any length changes its CRC-16. */
  lemma Crc16DetectsTwoBytes(s: seq<bv8>, t: seq<bv8>, i: nat)
    requires DifferWithin(s, t, i, 2)
    ensures Register(Fold16, 0xFFFF, s) != Register(Fold16, 0xFFFF, t)
  {
    forall c, d, b | Fold16(c, b) == Fold16(d, b)
      ensures c == d
    {
      Fold16Injective(c, d, b);
    }
    forall c, a, b, a', b' | Fold16(Fold16(c, a), b) == Fold16(Fold16(c, a'), b')
      ensures a == a' && b == b'
    {
      Fold16Twice(c, a, b, a', b');
    }
    RegisterDetectsTwoBytes(Fold16, 0xFFFF, s, t, i);
  }

  // ----- the shortest pattern of a control frame -----

  lemma PatternFolds()
    ensures Fold8(0, 0xAA) == 0x5F && Fold8(0x5F, 0x55) == 0x36
    ensures Fold8(0x36, 1) == 0x85 && Fold8(0x85, 1) == 0x95
  {
  }

  lemma PatternCrc()
    ensures Crc8([0xAA, 0x55, 1, 1]) == 0x95
  {
    hide Register, Fold8;
    var s: seq<byte> := [0xAA, 0x55, 1, 1];
    RegisterSnoc(Fold8, 0, s, 0);
    RegisterSnoc(Fold8, 0, s, 1);
    RegisterSnoc(Fold8, 0, s, 2);
    RegisterSnoc(Fold8, 0, s, 3);
    RegisterEmpty(Fold8, 0 as bv8);
    PatternFolds();
    assert s[..4] == s && s[..0] == [] && Bits([]) == [];
  }

  // ----- two frames with one checksum -----

  lemma AlteredFolds()
    ensures Fold8(0, 1) == 7 && Fold8(7, 12) == 49
    ensures Fold8(49, 0xAA) == 200 && Fold8(200, 0x55) == 218 && Fold8(218, 1) == 15 && Fold8(15, 1) == 42
    ensures Fold8(42, 0x95) == 52 && Fold8(52, 0) == 140 && Fold8(49, 5) == 140
    ensures Fold8(140, 1) == 170 && Fold8(170, 1) == 88 && Fold8(88, 1) == 136
  {
  }

  lemma Steps(s: seq<byte>, i: nat, c: bv8)
    requires i < |s| && Register(Fold8, 0, Bits(s[..i])) == c
    ensures Register(Fold8, 0, Bits(s[..i + 1])) == Fold8(c, s[i] as bv8)
  {
    RegisterSnoc(Fold8, 0, s, i);
  }

  lemma StartsAtZero(s: seq<byte>)
    ensures Register(Fold8, 0, Bits(s[..0])) == 0
  {
    RegisterEmpty(Fold8, 0 as bv8);
    assert Bits(s[..0]) == [];
  }

  /** Taking a control frame out of the first and putting a 5 in the place of the zero behind it gives the second. */
  lemma AlteredCrc()
    ensures Crc8([1, 12, 0xAA, 0x55, 1, 1, 0x95, 0, 1, 1, 1]) == 0x88
    ensures Crc8([1, 12, 5, 1, 1, 1]) == 0x88
  {
    LongCrc();
    ShortCrc();
  }

  lemma LongCrc()
    ensures Crc8([1, 12, 0xAA, 0x55, 1, 1, 0x95, 0, 1, 1, 1]) == 0x88
  {
    hide Register, Fold8, Bits;
    var s: seq<byte> := [1, 12, 0xAA, 0x55, 1, 1, 0x95, 0, 1, 1, 1];
    LongCrcHead(s);
    AlteredFolds();
    Steps(s, 6, 42);
    Steps(s, 7, 52);
    Steps(s, 8, 140);
    Steps(s, 9, 170);
    Steps(s, 10, 88);
    assert s[..11] == s;
  }

  lemma LongCrcHead(s: seq<byte>)
    requires |s| >= 6 && s[0] == 1 && s[1] == 12 && s[2] == 0xAA && s[3] == 0x55 && s[4] == 1 && s[5] == 1
    ensures Register(Fold8, 0, Bits(s[..6])) == 42
  {
    hide Register, Fold8, Bits;
    AlteredFolds();
    StartsAtZero(s);
    Steps(s, 0, 0);
    Steps(s, 1, 7);
    Steps(s, 2, 49);
    Steps(s, 3, 200);
    Steps(s, 4, 218);
    Steps(s, 5, 15);
  }

  lemma ShortCrc()
    ensures Crc8([1, 12, 5, 1, 1, 1]) == 0x88
  {
    hide Register, Fold8, Bits;
    AlteredFolds();
    var s: seq<byte> := [1, 12, 5, 1, 1, 1];
    StartsAtZero(s);
    Steps(s, 0, 0);
    Steps(s, 1, 7);
    Steps(s, 2, 49);
    Steps(s, 3, 140);
    Steps(s, 4, 170);
    Steps(s, 5, 88);
    assert s[..6] == s;
  }
}
