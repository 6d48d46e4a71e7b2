// The LSB-first bit reader and writer the FRAM and BLE record decoders are
// built on. Bit `p` of a buffer is bit `p % 8` of byte `p / 8`; a bit
// position is `byteOffset * 8 + bitOffset + i`.
module Bits {
  import opened Bytes

  /** `1 << k` for the eight bit positions of a byte. */
  function Mask(k: nat): byte
    requires k < 8
  {
    if k == 0 then 1 else if k == 1 then 2 else if k == 2 then 4 else if k == 3 then 8
    else if k == 4 then 16 else if k == 5 then 32 else if k == 6 then 64 else 128
  }

  lemma MaskIsShift(k: bv8)
    requires k < 8
    ensures Mask(k as int) == 1 << k
  {
  }

  /** Bit `p` of `buf` as 0 or 1; positions before the buffer read as 0,
      as the reader skips them. */
  function Bit(buf: seq<byte>, p: int): (b: nat)
    requires p < 8 * |buf|
    ensures b <= 1
  {
    if p < 0 then 0 else if buf[p / 8] & Mask(p % 8) != 0 then 1 else 0
  }

  /** The number whose bit `i` is bit `start + i` of `buf`, for i < n. */
  function BitsValue(buf: seq<byte>, start: int, n: nat): int
    requires start + n <= 8 * |buf|
  {
    if n == 0 then 0 else BitsValue(buf, start, n - 1) + Bit(buf, start + n - 1) * Pow2(n - 1)
  }

  lemma {:induction false} BitsValueBound(buf: seq<byte>, start: int, n: nat)
    requires start + n <= 8 * |buf|
    ensures 0 <= BitsValue(buf, start, n) < Pow2(n)
  {
    if n > 0 {
      BitsValueBound(buf, start, n - 1);
      assert Pow2(n) == 2 * Pow2(n - 1);
    }
  }

  /** `readBits(buffer, byteOffset, bitOffset, bitCount)`. A negative count
      and a bit past the end of the buffer trap, hence the precondition. */
  method ReadBits(buf: seq<byte>, byteOffset: int, bitOffset: int, bitCount: int) returns (res: int)
    requires bitCount >= 0
    requires byteOffset * 8 + bitOffset + bitCount <= 8 * |buf|
    ensures res == BitsValue(buf, byteOffset * 8 + bitOffset, bitCount)
    ensures 0 <= res < Pow2(bitCount)
    ensures bitCount == 0 ==> res == 0
  {
    ghost var start := byteOffset * 8 + bitOffset;
    if bitCount == 0 {
      return 0;
    }
    res := 0;
    var i := 0;
    while i < bitCount
      invariant 0 <= i <= bitCount
      invariant res == BitsValue(buf, start, i)
    {
      var totalBitOffset := byteOffset * 8 + bitOffset + i;
      // `res |= 1 << i`: bit i of `res` is still clear, so the or is a sum
      if totalBitOffset >= 0 && Bit(buf, totalBitOffset) == 1 {
        res := res + Pow2(i);
      }
      i := i + 1;
    }
    BitsValueBound(buf, start, bitCount);
  }

  /** The `len` bytes from `offset` on, with zeros for the positions before
      the buffer, which the reader skips. */
  function Window(buf: seq<byte>, offset: int, len: nat): (w: seq<byte>)
    requires offset + len <= |buf|
    ensures |w| == len
  {
    seq(len, k requires 0 <= k < len => if offset + k < 0 then 0 else buf[offset + k])
  }

  /** A bit read at a byte offset is the bit of the window there. */
  lemma WindowBit(buf: seq<byte>, offset: int, len: nat, base: int, q: nat, p: int)
    requires offset + len <= |buf| && q < 8 * len && base == offset * 8 && p == base + q
    ensures Bit(buf, p) == Bit(Window(buf, offset, len), q)
  {
    assert p == 8 * (offset + q / 8) + q % 8;
    assert p / 8 == offset + q / 8 && p % 8 == q % 8;
  }

  /** Reading `n` bits at a byte offset reads them from the window. */
  lemma {:induction false} WindowValue(buf: seq<byte>, offset: int, len: nat, base: int, c: nat, n: nat)
    requires offset + len <= |buf| && c + n <= 8 * len && base == offset * 8
    ensures BitsValue(buf, base + c, n) == BitsValue(Window(buf, offset, len), c, n)
  {
    if n > 0 {
      WindowValue(buf, offset, len, base, c, n - 1);
      WindowBit(buf, offset, len, base, c + n - 1, base + c + n - 1);
    }
  }

  /** Bit `i` of a Swift `Int`, `(value >> i) & 1`: the shift is arithmetic,
      so this is binary digit `i` under floor division. */
  function IntBit(v: int, i: nat): (b: nat)
    ensures b <= 1
  {
    Digit(v, 2, i)
  }

  /** `res[byte] = res[byte] & ~(1 << bit) | UInt8(bitValue) << bit`. */
  function SetBit(buf: seq<byte>, p: nat, b: nat): (r: seq<byte>)
    requires p < 8 * |buf| && b <= 1
    ensures |r| == |buf|
  {
    buf[p / 8 := SetByteBit(buf[p / 8], p % 8, b)]
  }

  function SetByteBit(x: byte, j: nat, b: nat): byte
    requires j < 8
  {
    (x & !Mask(j)) | (if b == 1 then Mask(j) else 0)
  }

  /** The buffer after the first `n` steps of the writer's loop. */
  function Written(buf: seq<byte>, start: nat, n: nat, v: int): (r: seq<byte>)
    requires start + n <= 8 * |buf|
    ensures |r| == |buf|
  {
    if n == 0 then buf else SetBit(Written(buf, start, n - 1, v), start + n - 1, IntBit(v, n - 1))
  }

  lemma ByteBitSet(x: byte, j: nat, i: nat, b: nat)
    requires j < 8 && i < 8 && b <= 1
    ensures (SetByteBit(x, j, b) & Mask(i) != 0) == if i == j then b == 1 else x & Mask(i) != 0
  {
    assert j == 0 || j == 1 || j == 2 || j == 3 || j == 4 || j == 5 || j == 6 || j == 7;
    assert i == 0 || i == 1 || i == 2 || i == 3 || i == 4 || i == 5 || i == 6 || i == 7;
  }

  /** Setting one bit changes that bit and no other. */
  lemma SetBitBit(buf: seq<byte>, q: nat, b: nat, p: int)
    requires q < 8 * |buf| && b <= 1 && p < 8 * |buf|
    ensures Bit(SetBit(buf, q, b), p) == if p == q then b else Bit(buf, p)
  {
    if p >= 0 && p / 8 == q / 8 {
      ByteBitSet(buf[q / 8], q % 8, p % 8, b);
      SameByteSameBit(p, q);
    }
  }

  lemma SameByteSameBit(p: nat, q: nat)
    requires p / 8 == q / 8
    ensures (p == q) == (p % 8 == q % 8)
  {
  }

  /** Every bit of the window holds the value's bit. */
  lemma {:induction false} WrittenInside(buf: seq<byte>, start: nat, n: nat, v: int, p: int)
    requires start + n <= 8 * |buf| && start <= p < start + n
    ensures Bit(Written(buf, start, n, v), p) == IntBit(v, p - start)
  {
    var prev := Written(buf, start, n - 1, v);
    if p < start + n - 1 {
      SetBitBit(prev, start + n - 1, IntBit(v, n - 1), p);
      WrittenInside(buf, start, n - 1, v, p);
    } else {
      SetBitBit(prev, start + n - 1, IntBit(v, n - 1), p);
    }
  }

  /** Every bit outside the window is kept. */
  lemma {:induction false} WrittenOutside(buf: seq<byte>, start: nat, n: nat, v: int, p: int)
    requires start + n <= 8 * |buf| && p < 8 * |buf| && !(start <= p < start + n)
    ensures Bit(Written(buf, start, n, v), p) == Bit(buf, p)
  {
    if n > 0 {
      SetBitBit(Written(buf, start, n - 1, v), start + n - 1, IntBit(v, n - 1), p);
      WrittenOutside(buf, start, n - 1, v, p);
    }
  }

  /** The value read back depends only on the bits of the window. */
  lemma {:induction false} BitsValueOfBits(a: seq<byte>, b: seq<byte>, start: int, n: nat)
    requires start + n <= 8 * |a| && start + n <= 8 * |b|
    requires forall p :: start <= p < start + n ==> Bit(a, p) == Bit(b, p)
    ensures BitsValue(a, start, n) == BitsValue(b, start, n)
  {
    if n > 0 {
      BitsValueOfBits(a, b, start, n - 1);
    }
  }

  /** The sum read lowest bit first. */
  lemma {:induction false} BitsValueCons(buf: seq<byte>, start: int, n: nat)
    requires n > 0 && start + n <= 8 * |buf|
    ensures BitsValue(buf, start, n) == Bit(buf, start) + 2 * BitsValue(buf, start + 1, n - 1)
  {
    if n > 1 {
      BitsValueCons(buf, start, n - 1);
      assert Pow2(n - 1) == 2 * Pow2(n - 2);
    }
  }

  /** Reading back a window holding the value's low bits gives the value's
      binary digits summed back. */
  lemma {:induction false} BitsValueOfDigits(buf: seq<byte>, start: int, n: nat, v: int)
    requires start + n <= 8 * |buf|
    requires forall k :: 0 <= k < n ==> Bit(buf, start + k) == IntBit(v, k)
    ensures BitsValue(buf, start, n) == Digits(v, 2, n)
    decreases n
  {
    if n > 0 {
      BitsValueCons(buf, start, n);
      assert Bit(buf, start + 0) == IntBit(v, 0);
      forall k | 0 <= k < n - 1
        ensures Bit(buf, start + 1 + k) == IntBit(v / 2, k)
      {
        assert Bit(buf, start + (k + 1)) == IntBit(v, k + 1);
      }
      BitsValueOfDigits(buf, start + 1, n - 1, v / 2);
    }
  }

  /** Reading back a window just written gives `v mod 2^n`, the buffer keeps
      its length and every bit outside the window is kept. */
  lemma ReadAfterWrite(buf: seq<byte>, start: nat, n: nat, v: int)
    requires start + n <= 8 * |buf|
    ensures |Written(buf, start, n, v)| == |buf|
    ensures BitsValue(Written(buf, start, n, v), start, n) == v % Pow2(n)
    ensures forall p :: 0 <= p < 8 * |buf| && !(start <= p < start + n) ==>
      Bit(Written(buf, start, n, v), p) == Bit(buf, p)
  {
    var w := Written(buf, start, n, v);
    forall k | 0 <= k < n
      ensures Bit(w, start + k) == IntBit(v, k)
    {
      WrittenInside(buf, start, n, v, start + k);
    }
    BitsValueOfDigits(w, start, n, v);
    DigitsIsMod(v, 2, n);
    forall p | 0 <= p < 8 * |buf| && !(start <= p < start + n)
      ensures Bit(w, p) == Bit(buf, p)
    {
      WrittenOutside(buf, start, n, v, p);
    }
  }

  /** `IntBit` is the arithmetic shift followed by the mask. */
  lemma {:induction false} ShiftedBit(v: int, i: nat)
    ensures (v / Pow2(i)) % 2 == IntBit(v, i)
    decreases i
  {
    if i > 0 {
      ShiftedBit(v / 2, i - 1);
      DivDiv(v, 2, Pow2(i - 1));
    }
  }

  /** `writeBits(buffer, byteOffset, bitOffset, bitCount, value)`. A negative
      bit position or one past the end traps, hence the precondition. */
  method WriteBits(buf: seq<byte>, byteOffset: int, bitOffset: int, bitCount: int, value: int)
    returns (res: seq<byte>)
    requires bitCount >= 0
    requires bitCount > 0 ==> byteOffset * 8 + bitOffset >= 0
    requires byteOffset * 8 + bitOffset + bitCount <= 8 * |buf|
    ensures bitCount > 0 ==> res == Written(buf, byteOffset * 8 + bitOffset, bitCount, value)
    ensures bitCount == 0 ==> res == buf
  {
    if bitCount == 0 {
      return buf;
    }
    var start := byteOffset * 8 + bitOffset;
    res := buf;
    var i := 0;
    while i < bitCount
      invariant 0 <= i <= bitCount
      invariant res == Written(buf, start, i, value)
    {
      var totalBitOffset := start + i;
      var bitValue := IntBit(value, i);
      assert Written(buf, start, i + 1, value) == SetBit(res, totalBitOffset, bitValue);
      res := SetBit(res, totalBitOffset, bitValue);
      i := i + 1;
    }
  }
}
