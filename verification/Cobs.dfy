/**
  Consistent-overhead byte stuffing: a code byte tells how far the next zero is, so the encoding itself holds
  none. `EncFrom` and `Dec` say what the two in-place loops compute.
 */
module Cobs {
  import opened Wire

  const FULL: int := 254  // data bytes behind a 0xFF code, which stands for no zero

  predicate ZeroFree(s: seq<byte>) {
    forall i :: 0 <= i < |s| ==> s[i] != 0
  }

  /** The encoding of `src` when `run` has been collected since the last code byte. */
  function EncFrom(run: seq<byte>, src: seq<byte>): seq<byte>
    requires |run| < FULL
    decreases |src|
  {
    if src == [] then [|run| + 1] + run
    else if src[0] == 0 then [|run| + 1] + run + EncFrom([], src[1..])
    else if |run| + 1 == FULL then [0xFF] + (run + [src[0]]) + EncFrom([], src[1..])
    else EncFrom(run + [src[0]], src[1..])
  }

  function Enc(src: seq<byte>): seq<byte> { EncFrom([], src) }

  function Prepend(p: seq<byte>, r: Option<seq<byte>>): Option<seq<byte>> {
    match r
    case None => None
    case Some(t) => Some(p + t)
  }

  /** Decoding fails on a zero code and on a run that reaches past the end. */
  function Dec(src: seq<byte>): Option<seq<byte>> {
    if src == [] then Some([])
    else
      var code := src[0];
      if code == 0 || code > |src| then None
      else
        var rest := src[code..];
        Prepend(src[1..code] + (if code < 0xFF && rest != [] then [0] else []), Dec(rest))
  }

  /** What the caller of `decode` sees: a failure and an empty result look alike. */
  function Decode(src: seq<byte>): seq<byte> {
    match Dec(src)
    case Some(d) => d
    case None => []
  }

  // ----- round trip -----

  /** One block in front of an encoding decodes to its run, a zero if it stood for one, and the rest. */
  lemma DecBlock(run: seq<byte>, rest: seq<byte>)
    requires |run| <= FULL
    ensures Dec([|run| + 1] + run + rest) == Prepend(run + (if |run| < FULL && rest != [] then [0] else []), Dec(rest))
  {
    var s := [|run| + 1] + run + rest;
    assert s[1..s[0]] == run && s[s[0]..] == rest;
  }

  lemma EncNotEmpty(run: seq<byte>, src: seq<byte>)
    requires |run| < FULL
    ensures |EncFrom(run, src)| > |run| + |src| && EncFrom(run, src)[0] > 0
    decreases |src|
  {
    if src != [] {
      if src[0] == 0 || |run| + 1 == FULL {
        EncNotEmpty([], src[1..]);
      } else {
        EncNotEmpty(run + [src[0]], src[1..]);
      }
    }
  }

  /** A closed block in front of the encoding of `rest`. */
  lemma DecClosed(run: seq<byte>, rest: seq<byte>)
    requires |run| <= FULL && Dec(EncFrom([], rest)) == Some(rest)
    ensures Dec([|run| + 1] + run + EncFrom([], rest)) == Some(run + (if |run| < FULL then [0] else []) + rest)
  {
    EncNotEmpty([], rest);
    DecBlock(run, EncFrom([], rest));
  }

  lemma {:induction false} DecEncFrom(run: seq<byte>, src: seq<byte>)
    requires |run| < FULL
    ensures Dec(EncFrom(run, src)) == Some(run + src)
    decreases |src|
  {
    if src == [] {
      assert [|run| + 1] + run == [|run| + 1] + run + [];
      DecBlock(run, []);
      assert run + [] + [] == run + src;
    } else {
      var rest := src[1..];
      assert src == [src[0]] + rest;
      if src[0] != 0 && |run| + 1 < FULL {
        DecEncFrom(run + [src[0]], rest);
        Assoc(run, [src[0]], rest);
      } else {
        DecEncFrom([], rest);
        assert [] + rest == rest;
        if src[0] == 0 {
          DecClosed(run, rest);
          Assoc(run, [0], rest);
        } else {
          DecClosed(run + [src[0]], rest);
          assert run + [src[0]] + [] + rest == run + src;
        }
      }
    }
  }

  /** Decoding undoes encoding, for every byte string. */
  lemma DecodeEncode(x: seq<byte>)
    ensures Dec(Enc(x)) == Some(x) && Decode(Enc(x)) == x
  {
    DecEncFrom([], x);
    assert [] + x == x;
  }

  // ----- shape -----

  lemma {:induction false} EncFromZeroFree(run: seq<byte>, src: seq<byte>)
    requires |run| < FULL && ZeroFree(run)
    ensures ZeroFree(EncFrom(run, src))
    decreases |src|
  {
    if src != [] {
      if src[0] == 0 || |run| + 1 == FULL {
        EncFromZeroFree([], src[1..]);
      } else {
        EncFromZeroFree(run + [src[0]], src[1..]);
      }
    }
  }

  lemma {:induction false} EncFromLength(run: seq<byte>, src: seq<byte>)
    requires |run| < FULL
    ensures var n := |run| + |src|;
      |EncFrom(run, src)| <= n + n / FULL + 1 && (ZeroFree(src) ==> |EncFrom(run, src)| == n + n / FULL + 1)
    decreases |src|
  {
    var n := |run| + |src|;
    if src != [] {
      var rest := src[1..];
      if src[0] == 0 {
        EncFromLength([], rest);
        assert |rest| / FULL <= n / FULL;
      } else if |run| + 1 == FULL {
        EncFromLength([], rest);
        assert n == FULL + |rest|;
        assert n / FULL == 1 + |rest| / FULL;
      } else {
        EncFromLength(run + [src[0]], rest);
      }
    }
  }

  /** The encoding has no zero byte and is at most n + n/254 + 1 long; without zeros to replace it is exactly that long. */
  lemma EncodingShape(x: seq<byte>)
    ensures ZeroFree(Enc(x)) && Enc(x) != []
    ensures |x| < |Enc(x)| <= |x| + |x| / FULL + 1
    ensures ZeroFree(x) ==> |Enc(x)| == |x| + |x| / FULL + 1
  {
    EncNotEmpty([], x);
    EncFromZeroFree([], x);
    EncFromLength([], x);
  }

  /** Decoding writes fewer bytes than it reads, whatever the input. */
  lemma {:induction false} DecShorter(s: seq<byte>)
    requires s != []
    ensures |Decode(s)| < |s| && (Dec(s).Some? ==> |Dec(s).value| < |s|)
  {
    if 0 < s[0] <= |s| {
      var head, rest := s[1..s[0]], s[s[0]..];
      assert |head| + 1 + |rest| == |s|;
      assert Dec(s) == Prepend(head + (if s[0] < 0xFF && rest != [] then [0] else []), Dec(rest));
      if rest != [] {
        DecShorter(rest);
      }
    }
  }

  // ----- the loops -----

  /** Overwriting the code byte of a block completes it. */
  lemma CloseBlock(a: seq<byte>, lo: nat, c: nat, w: nat, code: byte)
    requires lo <= c < w <= |a|
    ensures a[c := code][lo..w] == a[lo..c] + ([code] + a[c + 1..w])
    ensures a[c := code][..lo] == a[..lo] && a[c := code][w..] == a[w..]
  {
  }

  /** One more byte behind the block leaves what is in front of it alone. */
  lemma ExtendBlock(a: seq<byte>, lo: nat, c: nat, w: nat, b: byte)
    requires lo <= c < w < |a|
    ensures a[w := b][c + 1..w + 1] == a[c + 1..w] + [b] && a[w := b][lo..c] == a[lo..c]
    ensures a[w := b][..lo] == a[..lo] && a[w := b][w + 1..] == a[w + 1..]
  {
  }

  /** The encoder's state: `done` is complete, `run` is the open block, and together with the input left they make `full`. */
  ghost predicate Encoding(a: seq<byte>, lo: nat, c: nat, w: nat, rest: seq<byte>, full: seq<byte>, was: seq<byte>) {
    && lo <= c < w <= |a| == |was| && w - c <= FULL
    && full == a[lo..c] + EncFrom(a[c + 1..w], rest)
    && a[..lo] == was[..lo] && a[w..] == was[w..]
  }

  lemma StartEncoding(was: seq<byte>, lo: nat, src: seq<byte>)
    requires lo < |was|
    ensures Encoding(was, lo, lo, lo + 1, src, Enc(src), was)
  {
    assert was[lo..lo] == [] && was[lo + 1..lo + 1] == [];
    assert [] + Enc(src) == Enc(src);
  }

  /** The open block ends: at a zero, or because it is full. */
  lemma EndBlock(a: seq<byte>, lo: nat, c: nat, w: nat, code: byte, rest: seq<byte>, full: seq<byte>, was: seq<byte>)
    requires lo <= c < w < |a| == |was| && w - c <= FULL + 1 && code == w - c
    requires full == a[lo..c] + ([code] + a[c + 1..w] + EncFrom([], rest))
    requires a[..lo] == was[..lo] && a[w..] == was[w..]
    ensures Encoding(a[c := code], lo, w, w + 1, rest, full, was)
  {
    CloseBlock(a, lo, c, w, code);
    assert a[c := code][w + 1..w + 1] == [];
    assert a[lo..c] + ([code] + a[c + 1..w] + EncFrom([], rest)) == a[lo..c] + ([code] + a[c + 1..w]) + EncFrom([], rest);
    assert a[c := code][w + 1..] == a[c := code][w..][1..] && was[w + 1..] == was[w..][1..];
  }

  lemma ZeroStep(a: seq<byte>, lo: nat, c: nat, w: nat, rest: seq<byte>, full: seq<byte>, was: seq<byte>)
    requires Encoding(a, lo, c, w, rest, full, was) && w < |a| && rest != [] && rest[0] == 0
    ensures Encoding(a[c := w - c], lo, w, w + 1, rest[1..], full, was)
  {
    EndBlock(a, lo, c, w, w - c, rest[1..], full, was);
  }

  lemma ByteStep(a: seq<byte>, lo: nat, c: nat, w: nat, rest: seq<byte>, full: seq<byte>, was: seq<byte>)
    requires Encoding(a, lo, c, w, rest, full, was) && w < |a| && rest != [] && rest[0] != 0 && w - c < FULL
    ensures Encoding(a[w := rest[0]], lo, c, w + 1, rest[1..], full, was)
  {
    ExtendBlock(a, lo, c, w, rest[0]);
    assert was[w + 1..] == was[w..][1..] && a[w + 1..] == a[w..][1..];
  }

  lemma FullStep(a: seq<byte>, lo: nat, c: nat, w: nat, rest: seq<byte>, full: seq<byte>, was: seq<byte>)
    requires Encoding(a, lo, c, w, rest, full, was) && w + 1 < |a| && rest != [] && rest[0] != 0 && w - c == FULL
    ensures Encoding(a[w := rest[0]][c := 0xFF], lo, w + 1, w + 2, rest[1..], full, was)
  {
    ExtendBlock(a, lo, c, w, rest[0]);
    assert was[w + 1..] == was[w..][1..] && a[w + 1..] == a[w..][1..];
    EndBlock(a[w := rest[0]], lo, c, w + 1, 0xFF, rest[1..], full, was);
  }

  lemma FinishEncoding(a: seq<byte>, lo: nat, c: nat, w: nat, full: seq<byte>, was: seq<byte>)
    requires Encoding(a, lo, c, w, [], full, was)
    ensures |full| == w - lo && a[c := w - c] == was[..lo] + full + was[w..]
  {
    CloseBlock(a, lo, c, w, w - c);
    var r := a[c := w - c];
    assert r == r[..lo] + r[lo..w] + r[w..];
  }

  /** The room still needed: the code byte of the open block, its run and the input left, at least. */
  lemma RoomLeft(a: seq<byte>, lo: nat, c: nat, w: nat, rest: seq<byte>, full: seq<byte>, was: seq<byte>)
    requires Encoding(a, lo, c, w, rest, full, was) && rest != []
    ensures w < lo + |full| && (w - c == FULL && rest[0] != 0 ==> w + 1 < lo + |full|)
  {
    EncNotEmpty(a[c + 1..w], rest);
    EncNotEmpty([], rest[1..]);
  }

  /** One byte of input: a zero closes the open block, any other byte joins it and closes it when that fills it. */
  method EncodeByte(b: byte, dst: array<byte>, codeIndex: nat, write: nat, code: byte,
                    ghost off: nat, ghost rest: seq<byte>, ghost full: seq<byte>, ghost was: seq<byte>)
    returns (codeIndex': nat, write': nat, code': byte)
    requires rest != [] && rest[0] == b && write == codeIndex + code && 1 <= code <= FULL
    requires Encoding(dst[..], off, codeIndex, write, rest, full, was) && off + |full| <= dst.Length
    modifies dst
    ensures write' == codeIndex' + code' && off <= codeIndex' && 1 <= code' <= FULL
    ensures Encoding(dst[..], off, codeIndex', write', rest[1..], full, was)
  {
    hide EncFrom;
    ghost var a := dst[..];
    RoomLeft(a, off, codeIndex, write, rest, full, was);
    codeIndex', write', code' := codeIndex, write, code;
    if b == 0 {
      ZeroStep(a, off, codeIndex, write, rest, full, was);
      dst[codeIndex] := code;
      assert dst[..] == a[codeIndex := code];
      code', codeIndex', write' := 1, write, write + 1;
    } else {
      dst[write] := b;
      assert dst[..] == a[write := b];
      write', code' := write + 1, code + 1;
      if code' == 0xFF {
        FullStep(a, off, codeIndex, write, rest, full, was);
        dst[codeIndex] := code';
        assert dst[..] == a[write := b][codeIndex := 0xFF];
        code', codeIndex', write' := 1, write', write' + 1;
      } else {
        ByteStep(a, off, codeIndex, write, rest, full, was);
      }
    }
  }

  /** Encodes `src[..len]` into `dst` from `off` on; bytes outside the encoding stay as they are. */
  method Encode(src: array<byte>, len: nat, dst: array<byte>, off: nat) returns (n: nat)
    requires src != dst && len <= src.Length && off + len + len / FULL + 1 <= dst.Length
    modifies dst
    ensures n == |Enc(src[..len])| && off + n <= dst.Length
    ensures dst[..] == old(dst[..off]) + Enc(src[..len]) + old(dst[off + n..])
  {
    hide EncFrom, Enc, Encoding;
    EncodingShape(src[..len]);
    ghost var full, was := Enc(src[..len]), dst[..];
    var read, write, codeIndex := 0, off + 1, off;
    var code: byte := 1;
    StartEncoding(was, off, src[..len]);
    assert src[0..len] == src[..len];
    while read < len
      invariant 0 <= read <= len && write == codeIndex + code && off <= codeIndex && 1 <= code <= FULL
      invariant Encoding(dst[..], off, codeIndex, write, src[read..len], full, was)
    {
      ghost var rest := src[read..len];
      assert rest[1..] == src[read + 1..len];
      codeIndex, write, code := EncodeByte(src[read], dst, codeIndex, write, code, off, rest, full, was);
      read := read + 1;
    }
    assert src[read..len] == [];
    FinishEncoding(dst[..], off, codeIndex, write, full, was);
    dst[codeIndex] := code;
    n := write - off;
  }

  /** The decoder's state: `write` bytes of output stand, and what is left to read makes the rest. */
  ghost predicate Decoding(d: seq<byte>, w: nat, rest: seq<byte>, full: Option<seq<byte>>) {
    w <= |d| && full == Prepend(d[..w], Dec(rest))
  }

  /** A code that is zero, or reaches past the end, means there is nothing to decode. */
  lemma BadBlock(d: seq<byte>, w: nat, rest: seq<byte>, full: Option<seq<byte>>)
    requires Decoding(d, w, rest, full) && rest != [] && (rest[0] == 0 || rest[0] > |rest|)
    ensures full == None
  {
  }

  lemma StartDecoding(d: seq<byte>, input: seq<byte>)
    ensures Decoding(d, 0, input, Dec(input))
  {
    var full := Dec(input);
    if full.Some? {
      assert d[..0] + full.value == full.value;
    }
  }

  lemma LastBlock(d: seq<byte>, w: nat, full: Option<seq<byte>>)
    requires Decoding(d, w, [], full)
    ensures full == Some(d[..w])
  {
    assert d[..w] + [] == d[..w];
  }

  /** One block: its run, and a zero unless it is full or last. */
  lemma BlockStep(d: seq<byte>, w: nat, rest: seq<byte>, full: Option<seq<byte>>, e: seq<byte>, w': nat)
    requires Decoding(d, w, rest, full) && rest != [] && 0 < rest[0] <= |rest|
    requires w' <= |e|
    requires e[..w'] == d[..w] + (rest[1..rest[0]] + (if rest[0] < 0xFF && rest[rest[0]..] != [] then [0] else []))
    ensures Decoding(e, w', rest[rest[0]..], full)
  {
    var block := rest[1..rest[0]] + (if rest[0] < 0xFF && rest[rest[0]..] != [] then [0] else []);
    var tail := Dec(rest[rest[0]..]);
    assert Dec(rest) == Prepend(block, tail);
    if tail.Some? {
      assert d[..w] + (block + tail.value) == (d[..w] + block) + tail.value;
    }
  }

  /** `memcpy`. */
  method CopyRun(src: array<byte>, read: nat, dst: array<byte>, write: nat, run: nat)
    requires src != dst && read + run <= src.Length && write + run <= dst.Length
    modifies dst
    ensures dst[..write + run] == old(dst[..write]) + src[read..read + run]
  {
    forall k | 0 <= k < run {
      dst[write + k] := src[read + k];
    }
  }

  /** One block of output: its run, and the zero it stands for, if any. */
  method CopyBlock(src: array<byte>, read: nat, dst: array<byte>, write: nat, run: nat, zero: bool) returns (w: nat)
    requires src != dst && read + run <= src.Length && write + run + (if zero then 1 else 0) <= dst.Length
    modifies dst
    ensures w == write + run + (if zero then 1 else 0)
    ensures dst[..w] == old(dst[..write]) + (src[read..read + run] + (if zero then [0] else []))
  {
    ghost var d := dst[..write];
    CopyRun(src, read, dst, write, run);
    w := write + run;
    if zero {
      dst[w] := 0;
      w := w + 1;
      assert dst[..w] == dst[..w - 1] + [0];
    }
  }

  lemma PrefixSlice(a: seq<byte>, n: nat, i: nat, j: nat)
    requires i <= j <= n <= |a|
    ensures a[..n][i..j] == a[i..j]
  {
  }

  lemma InnerSlice(s: seq<byte>, i: nat, n: nat)
    requires i + n <= |s| && n >= 1
    ensures s[i..][1..n] == s[i + 1..i + n] && s[i..][n..] == s[i + n..]
  {
  }

  /** Decodes `src[..len]` into `dst`; the output never overtakes the input. */
  method DecodeInto(src: array<byte>, len: nat, dst: array<byte>) returns (n: nat)
    requires src != dst && len <= src.Length && len <= dst.Length
    modifies dst
    ensures n <= len && dst[..n] == Decode(src[..len])
  {
    hide Dec;
    ghost var input := src[..len];
    ghost var full := Dec(input);
    var read: nat, write: nat := 0, 0;
    assert input[0..] == input;
    StartDecoding(dst[..], input);
    while read < len
      invariant 0 <= write <= read <= len
      invariant src[..len] == input
      invariant Decoding(dst[..], write, input[read..], full)
    {
      ghost var d, w, rest := dst[..], write, input[read..];
      var code := src[read];
      assert code == rest[0];
      read := read + 1;
      if code == 0 {
        BadBlock(d, w, rest, full);
        return 0;
      }
      var run := code - 1;
      if read + run > len {
        BadBlock(d, w, rest, full);
        return 0;
      }
      InnerSlice(input, read - 1, code);
      PrefixSlice(src[..], len, read, read + run);
      write := CopyBlock(src, read, dst, write, run, code < 0xFF && read + run < len);
      read := read + run;
      BlockStep(d, w, rest, full, dst[..], write);
    }
    assert input[read..] == [];
    LastBlock(dst[..], write, full);
    n := write;
  }

  /** An encoding cut short is refused, and so is one that begins with a zero. */
  lemma CutShortRefused(x: seq<byte>, k: nat)
    requires ZeroFree(x) && |x| < FULL && 0 < k <= |x|
    ensures |Enc(x)| == |x| + 1 && Enc(x)[0] == |x| + 1 && Dec(Enc(x)[..k]) == None
    ensures Dec([0] + x) == None
  {
    OneBlock([], x);
    assert [] + x == x;
  }

  /** Up to 253 bytes without a zero are one block, and a zero closes it; so every encoding is made of such blocks. */
  lemma BlocksAdd(x: seq<byte>, y: seq<byte>)
    requires ZeroFree(x) && |x| < FULL
    ensures Enc(x) == [|x| + 1] + x && Enc(x + [0] + y) == [|x| + 1] + x + Enc(y)
  {
    OneBlock([], x);
    assert [] + x == x;
    ZeroCloses([], x, y);
  }

  lemma {:induction false} ZeroCloses(run: seq<byte>, x: seq<byte>, y: seq<byte>)
    requires ZeroFree(x) && |run| + |x| < FULL
    ensures EncFrom(run, x + [0] + y) == [|run| + |x| + 1] + (run + x) + Enc(y)
    decreases |x|
  {
    var all := x + [0] + y;
    if x == [] {
      assert all[0] == 0 && all[1..] == y && run + x == run;
    } else {
      assert all[0] == x[0] && all[1..] == x[1..] + [0] + y;
      ZeroCloses(run + [x[0]], x[1..], y);
      assert run + [x[0]] + x[1..] == run + x;
    }
  }

  lemma {:induction false} OneBlock(run: seq<byte>, x: seq<byte>)
    requires ZeroFree(x) && |run| + |x| < FULL
    ensures EncFrom(run, x) == [|run| + |x| + 1] + (run + x)
    decreases |x|
  {
    if x == [] {
      assert run + x == run;
    } else {
      OneBlock(run + [x[0]], x[1..]);
      assert run + [x[0]] + x[1..] == run + x;
    }
  }
}
