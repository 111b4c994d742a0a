/** Frame geometry, wire constants and fixed-width integers shared by every layer of the link. */
module Wire {
  type byte = x: int | 0 <= x < 256
  type uint16 = x: int | 0 <= x < 0x1_0000
  type uint32 = x: int | 0 <= x < 0x1_0000_0000

  const MAX_CHUNK: int := 250
  const MSG_HDR: int := 6

  const ACK_TYPE: byte := 0xFF
  const NAK_TYPE: byte := 0xFE

  /** `(uint32_t)(now - since)`: the age of a stamp on the wrapping millisecond clock. */
  function Elapsed(now: uint32, since: uint32): uint32 {
    (now - since) % 0x1_0000_0000
  }

  datatype Option<+T> = None | Some(value: T)

  /** The concatenation of a sequence of sequences. */
  function Flatten<T>(ss: seq<seq<T>>): seq<T> {
    if ss == [] then [] else ss[0] + Flatten(ss[1..])
  }

  lemma {:induction false} FlattenAppend<T>(xs: seq<seq<T>>, ys: seq<seq<T>>)
    ensures Flatten(xs + ys) == Flatten(xs) + Flatten(ys)
  {
    if xs == [] {
      assert xs + ys == ys;
    } else {
      assert (xs + ys)[1..] == xs[1..] + ys;
      FlattenAppend(xs[1..], ys);
    }
  }

  lemma FlattenSnoc<T>(xs: seq<seq<T>>, x: seq<T>)
    ensures Flatten(xs + [x]) == Flatten(xs) + x
  {
    FlattenAppend(xs, [x]);
    assert Flatten([x]) == x + Flatten([x][1..]) == x;
  }

  lemma Assoc<T>(a: seq<T>, b: seq<T>, c: seq<T>)
    ensures (a + b) + c == a + (b + c)
  {
  }

  // ----- little-endian numbers -----

  function Little2(lo: int, hi: int): (n: int)
    requires 0 <= lo < 256 && 0 <= hi < 256
    ensures 0 <= n < 0x1_0000
  {
    lo + 256 * hi
  }

  /** Four bytes read as a little-endian number. */
  function Little4(a: int, b: int, c: int, d: int): int { a + 256 * (b + 256 * (c + 256 * d)) }

  lemma Little4Bound(a: byte, b: byte, c: byte, d: byte)
    ensures 0 <= Little4(a, b, c, d) < 0x1_0000_0000
  {
  }

  lemma DigitsOf(n: int, lo: int, hi: int)
    requires 0 <= lo < 256 && n == lo + 256 * hi
    ensures n % 256 == lo && n / 256 == hi
  {
  }

  lemma Little4Digits(a: byte, b: byte, c: byte, d: byte)
    ensures var n := Little4(a, b, c, d);
      n % 256 == a && n / 0x100 % 256 == b && n / 0x1_0000 % 256 == c && n / 0x100_0000 == d
  {
    var n := Little4(a, b, c, d);
    var n2 := c + 256 * d;
    var n1 := b + 256 * n2;
    DigitsOf(n, a, n1);
    DigitsOf(n1, b, n2);
    DigitsOf(n2, c, d);
    assert n / 0x1_0000 == n / 256 / 256;
    assert n / 0x100_0000 == n / 256 / 256 / 256;
  }

  lemma DigitsMake(n: uint32)
    ensures Little4(n % 256, n / 0x100 % 256, n / 0x1_0000 % 256, n / 0x100_0000) == n
  {
    var n1 := n / 256;
    var n2 := n1 / 256;
    assert n / 0x1_0000 == n2 && n / 0x100_0000 == n2 / 256;
    assert n == n % 256 + 256 * n1 && n1 == n1 % 256 + 256 * n2 && n2 == n2 % 256 + 256 * (n2 / 256);
  }

  function Bytes2(n: uint16): (b: seq<byte>)
    ensures |b| == 2
  {
    [n % 256, n / 256]
  }

  function Bytes4(n: uint32): (b: seq<byte>)
    ensures |b| == 4
  {
    [n % 256, n / 0x100 % 256, n / 0x1_0000 % 256, n / 0x100_0000]
  }
}
