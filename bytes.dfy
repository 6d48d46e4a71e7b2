// Byte-level vocabulary shared by every layer: Swift's UInt8/UInt16/UInt32
// as Dafny bit-vectors, the two-byte conversions, and the integer helpers
// that make Swift's truncating arithmetic explicit.
module Bytes {

  type byte = bv8
  type u16 = bv16

  /** Swift `UInt16(h, l)`: the high byte comes first. */
  function U16(hi: byte, lo: byte): u16
  {
    ((hi as u16) << 8) | (lo as u16)
  }

  /** The two bytes of a word built by `U16` are its high and low bytes. */
  lemma U16Parts(hi: byte, lo: byte)
    ensures Hi(U16(hi, lo)) == hi && Lo(U16(hi, lo)) == lo
  {
  }

  /** Low byte of a 16-bit word (`UInt8(truncatingIfNeeded: w)`). */
  function Lo(w: u16): byte
  {
    (w & 0xFF) as byte
  }

  /** High byte of a 16-bit word (`UInt8(truncatingIfNeeded: w >> 8)`). */
  function Hi(w: u16): byte
  {
    (w >> 8) as byte
  }

  /** Swift `UInt16(data[i...i+1])`: little-endian. */
  function LE16(s: seq<byte>, i: nat): u16
    requires i + 1 < |s|
  {
    U16(s[i + 1], s[i])
  }

  /** Swift `w.data`: the little-endian two bytes of a word. */
  function LeBytes(w: u16): (r: seq<byte>)
    ensures |r| == 2
  {
    [Lo(w), Hi(w)]
  }

  lemma LeBytesRoundTrip(w: u16)
    ensures LE16(LeBytes(w), 0) == w
    ensures U16(Hi(w), Lo(w)) == w
  {
  }

  lemma LE16OfBytes(a: byte, b: byte)
    ensures LeBytes(U16(b, a)) == [a, b]
  {
  }

  /** Two words, each little-endian, one after the other. */
  function LeWords(a: u16, b: u16): (r: seq<byte>)
    ensures |r| == 4
  {
    [Lo(a), Hi(a), Lo(b), Hi(b)]
  }

  lemma LeWordsRoundTrip(a: u16, b: u16)
    ensures LE16(LeWords(a, b), 0) == a && LE16(LeWords(a, b), 2) == b
  {
    LeBytesRoundTrip(a);
    LeBytesRoundTrip(b);
  }

  lemma LE16Append(x: seq<byte>, y: seq<byte>, i: nat)
    requires i + 1 < |y|
    ensures LE16(x + y, |x| + i) == LE16(y, i)
  {
  }

  lemma LE16Prefix(x: seq<byte>, y: seq<byte>, i: nat)
    requires i + 1 < |x|
    ensures LE16(x + y, i) == LE16(x, i)
  {
  }

  /** Bytewise xor of `a` with the first bytes of `key`. */
  function Xor(a: seq<byte>, key: seq<byte>): (r: seq<byte>)
    requires |key| >= |a|
    ensures |r| == |a|
  {
    seq(|a|, i requires 0 <= i < |a| => a[i] ^ key[i])
  }

  /** Xoring twice with the same key gives back the input. */
  lemma XorTwice(a: seq<byte>, key: seq<byte>)
    requires |key| >= |a|
    ensures Xor(Xor(a, key), key) == a
  {
    var once := Xor(a, key);
    forall i | 0 <= i < |a|
      ensures Xor(once, key)[i] == a[i]
    {
      ByteXorTwice(a[i], key[i]);
    }
  }

  lemma ByteXorTwice(a: byte, b: byte)
    ensures a ^ b ^ b == a
  {
  }

  /** Xor distributes over concatenation. */
  lemma XorAppend(a1: seq<byte>, a2: seq<byte>, k1: seq<byte>, k2: seq<byte>)
    requires |k1| == |a1| && |k2| >= |a2|
    ensures Xor(a1 + a2, k1 + k2) == Xor(a1, k1) + Xor(a2, k2)
  {
  }

  lemma TakeSplit(s: seq<byte>, a: nat, b: nat)
    requires a <= b <= |s|
    ensures s[..a] + s[a..b] == s[..b]
  {
  }

  lemma SliceOfSuffix(x: seq<byte>, y: seq<byte>)
    ensures (x + y)[|x|..|x| + |y|] == y
  {
  }

  lemma SliceOfPrefix(x: seq<byte>, y: seq<byte>, lo: nat, hi: nat)
    requires lo <= hi <= |x|
    ensures (x + y)[lo..hi] == x[lo..hi]
  {
  }

  /** Unsigned value of a little-endian two-byte field, as Swift's
      `Int(fram[i]) + Int(fram[i + 1]) << 8`. */
  function LeInt(s: seq<byte>, i: nat): (r: nat)
    requires i + 1 < |s|
    ensures r < 0x1_0000
  {
    s[i] as nat + 256 * s[i + 1] as nat
  }

  /** Four little-endian bytes of a 32-bit value. */
  function LeBytes32(x: nat): (r: seq<byte>)
    requires x < 0x1_0000_0000
    ensures |r| == 4
  {
    var q1 := x / 256;
    var q2 := q1 / 256;
    var q3 := q2 / 256;
    [(x % 256) as byte, (q1 % 256) as byte, (q2 % 256) as byte, (q3 % 256) as byte]
  }

  lemma LeBytes32Value(x: nat)
    requires x < 0x1_0000_0000
    ensures var b := LeBytes32(x);
      b[0] as nat + 256 * (b[1] as nat + 256 * (b[2] as nat + 256 * b[3] as nat)) == x
  {
    var b := LeBytes32(x);
    var q1 := x / 256;
    var q2 := q1 / 256;
    var q3 := q2 / 256;
    ByteOfNat(x % 256);
    ByteOfNat(q1 % 256);
    ByteOfNat(q2 % 256);
    ByteOfNat(q3 % 256);
    assert b[0] as nat == x % 256 && b[1] as nat == q1 % 256;
    assert b[2] as nat == q2 % 256 && b[3] as nat == q3 % 256;
    assert q3 < 256;
    Base256(x, b[0] as nat, b[1] as nat, b[2] as nat, b[3] as nat, q1, q2, q3);
  }

  /** Folding three base-256 divisions back into the value. */
  lemma Base256(x: int, a0: int, a1: int, a2: int, a3: int, q1: int, q2: int, q3: int)
    requires x == a0 + 256 * q1 && q1 == a1 + 256 * q2 && q2 == a2 + 256 * q3 && q3 == a3
    ensures a0 + 256 * (a1 + 256 * (a2 + 256 * a3)) == x
  {
  }

  lemma ByteOfNat(n: nat)
    requires n < 256
    ensures (n as byte) as nat == n
  {
    assert n % 256 == n;
  }

  function Pow(b: nat, n: nat): (r: nat)
    ensures b > 0 ==> r > 0
  {
    if n == 0 then 1 else b * Pow(b, n - 1)
  }

  function Pow2(n: nat): (r: nat)
    ensures r > 0
  {
    Pow(2, n)
  }

  /** Swift's `/` on Int: truncation toward zero. */
  function TruncDiv(a: int, d: int): (q: int)
    requires d > 0
  {
    if a >= 0 then a / d else -((-a) / d)
  }

  /** Swift's `%` on Int: the remainder takes the sign of the dividend. */
  function TruncMod(a: int, d: int): (r: int)
    requires d > 0
    ensures a == TruncDiv(a, d) * d + r
    ensures a >= 0 ==> 0 <= r < d
    ensures a < 0 ==> -d < r <= 0
  {
    if a >= 0 then a % d else -((-a) % d)
  }

  lemma TruncMatchesEuclid(a: int, d: int)
    requires d > 0 && a >= 0
    ensures TruncDiv(a, d) == a / d && TruncMod(a, d) == a % d
  {
  }

  lemma PowAdd(b: nat, m: nat, n: nat)
    ensures Pow(b, m + n) == Pow(b, m) * Pow(b, n)
    decreases n
  {
    if n > 0 {
      PowAdd(b, m, n - 1);
      calc {
        Pow(b, m + n);
        b * Pow(b, m + n - 1);
        b * (Pow(b, m) * Pow(b, n - 1));
        { MulAssoc(b, Pow(b, m), Pow(b, n - 1)); }
        Pow(b, m) * (b * Pow(b, n - 1));
      }
    }
  }

  lemma MulAssoc(a: int, b: int, c: int)
    ensures a * (b * c) == b * (a * c)
  {
  }

  lemma DivUnique(v: int, d: nat, q: int, r: int)
    requires d > 0 && 0 <= r < d && v == q * d + r
    ensures v / d == q && v % d == r
  {
    var q', r' := v / d, v % d;
    assert (q - q') * d == r' - r;
    if q > q' {
      MulAtLeast(q - q', d);
    } else if q < q' {
      MulAtLeast(q' - q, d);
    }
  }

  lemma MulAtLeast(k: int, d: int)
    requires k >= 1 && d > 0
    ensures k * d >= d
  {
  }

  /** Digit `i` of `v` in base `b`, lowest digit first (floor division,
      so a negative `v` gives the digits of its b-adic complement). */
  function Digit(v: int, b: nat, i: nat): (d: nat)
    requires b > 1
    ensures d < b
    decreases i
  {
    if i == 0 then v % b else Digit(v / b, b, i - 1)
  }

  /** The number written by the lowest `n` digits of `v` in base `b`. */
  function Digits(v: int, b: nat, n: nat): int
    requires b > 1
    decreases n
  {
    if n == 0 then 0 else Digit(v, b, 0) + b * Digits(v / b, b, n - 1)
  }

  lemma DivDiv(v: int, b: nat, p: nat)
    requires b > 0 && p > 0
    ensures v / b / p == v / (b * p)
  {
    var q, r := v / b, v % b;
    var q2, r2 := q / p, q % p;
    assert v == q2 * (b * p) + (b * r2 + r) by {
      assert v == b * q + r;
      assert q == q2 * p + r2;
      assert b * q == b * p * q2 + b * r2;
    }
    assert 0 <= b * r2 + r < b * p by {
      MulBelow(b, r2, p);
    }
    DivUnique(v, b * p, q2, b * r2 + r);
  }

  lemma MulBelow(b: nat, x: nat, p: nat)
    requires x < p
    ensures b * x <= b * (p - 1)
  {
  }

  lemma ModSplit(v: int, b: nat, p: nat)
    requires b > 0 && p > 0
    ensures v % (b * p) == v % b + b * ((v / b) % p)
  {
    var q, r := v / b, v % b;
    var q2, r2 := q / p, q % p;
    assert v == q2 * (b * p) + (b * r2 + r) by {
      assert v == b * q + r;
      assert q == q2 * p + r2;
      assert b * q == b * p * q2 + b * r2;
    }
    assert 0 <= b * r2 + r < b * p by {
      MulBelow(b, r2, p);
    }
    DivUnique(v, b * p, q2, b * r2 + r);
  }

  /** The lowest `n` digits of `v` in base `b` make up `v mod b^n`. */
  lemma {:induction false} DigitsIsMod(v: int, b: nat, n: nat)
    requires b > 1
    ensures Digits(v, b, n) == v % Pow(b, n)
    decreases n
  {
    if n > 0 {
      DigitsIsMod(v / b, b, n - 1);
      ModSplit(v, b, Pow(b, n - 1));
    }
  }

  /** Digit `i` is what the shift-and-mask `(v >> (i * log b)) & (b - 1)`
      computes: floor division by b^i, then the remainder. */
  lemma {:induction false} DigitByDivision(v: int, b: nat, i: nat)
    requires b > 1
    ensures (v / Pow(b, i)) % b == Digit(v, b, i)
    decreases i
  {
    if i > 0 {
      DigitByDivision(v / b, b, i - 1);
      DivDiv(v, b, Pow(b, i - 1));
    }
  }

  /** The digit sum built highest digit last, as a loop accumulates it. */
  lemma {:induction false} DigitsSnoc(v: int, b: nat, n: nat)
    requires b > 1
    ensures Digits(v, b, n + 1) == Digits(v, b, n) + Digit(v, b, n) * Pow(b, n)
    decreases n
  {
    if n > 0 {
      DigitsSnoc(v / b, b, n - 1);
      calc {
        Digits(v, b, n + 1);
        Digit(v, b, 0) + b * Digits(v / b, b, n);
        Digit(v, b, 0) + b * (Digits(v / b, b, n - 1) + Digit(v / b, b, n - 1) * Pow(b, n - 1));
        { Distribute(b, Digits(v / b, b, n - 1), Digit(v / b, b, n - 1) * Pow(b, n - 1)); }
        Digit(v, b, 0) + b * Digits(v / b, b, n - 1) + b * (Digit(v / b, b, n - 1) * Pow(b, n - 1));
        { MulAssoc(b, Digit(v / b, b, n - 1), Pow(b, n - 1)); }
        Digits(v, b, n) + Digit(v, b, n) * Pow(b, n);
      }
    }
  }

  lemma Distribute(a: int, x: int, y: int)
    ensures a * (x + y) == a * x + a * y
  {
  }

  /** A value below b^n is its own lowest `n` digits. */
  lemma DigitsOfSmall(v: nat, b: nat, n: nat)
    requires b > 1 && v < Pow(b, n)
    ensures Digits(v, b, n) == v
  {
    DigitsIsMod(v, b, n);
    DivUnique(v, Pow(b, n), 0, v);
  }

  /** A packet's bytes after its 4-byte header; every packet that reaches
      it is at least that long. */
  function Payload(packet: seq<byte>): seq<byte>
  {
    if |packet| < 4 then [] else packet[4..]
  }

  /** The payloads of a run of packets in order. */
  function Payloads(packets: seq<seq<byte>>): seq<byte>
  {
    if packets == [] then [] else Payloads(packets[..|packets| - 1]) + Payload(packets[|packets| - 1])
  }

  lemma PayloadsSnoc(packets: seq<seq<byte>>, last: seq<byte>)
    ensures Payloads(packets + [last]) == Payloads(packets) + Payload(last)
  {
    assert (packets + [last])[..|packets|] == packets;
  }

  /** The payloads split after the first packet as well as before the
      last. */
  lemma {:induction false} PayloadsCons(packets: seq<seq<byte>>)
    requires packets != []
    ensures Payloads(packets) == Payload(packets[0]) + Payloads(packets[1..])
    decreases |packets|
  {
    var n := |packets|;
    var tail := packets[1..];
    if n > 1 {
      var init := packets[..n - 1];
      var last := packets[n - 1];
      assert packets == init + [last];
      assert tail == init[1..] + [last];
      assert init[0] == packets[0];
      PayloadsCons(init);
      PayloadsSnoc(init, last);
      PayloadsSnoc(init[1..], last);
    } else {
      assert tail == [];
      assert packets[..0] == [];
    }
  }
}
