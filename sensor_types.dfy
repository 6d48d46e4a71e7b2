// What a sensor is, decoded from its patch info and uid: the sensor type,
// family, region and state enumerations, the base-32 serial number and the
// 10-character status code.
module SensorTypes {
  import opened Bytes

  datatype SensorType =
    | Libre1 | LibreUS14day | LibreProH | Libre2 | Libre2US | Libre2CA | LibreSense | Libre3 | Unknown

  /** `SensorType(patchInfo:)`, decided by the first byte. The Libre 2 US/CA
      and Sense code reads bytes 2 and 3, which must then exist. */
  function TypeOf(info: seq<byte>): (t: SensorType)
    requires |info| > 0
    requires info[0] == 0x76 ==> |info| >= 4
    ensures t == Libre1 <==> info[0] == 0xDF || info[0] == 0xA2
    ensures t == LibreUS14day <==> info[0] == 0xE5
    ensures t == LibreProH <==> info[0] == 0x70
    ensures t == Libre2 <==> info[0] == 0x9D
    ensures t == Libre2US <==> info[0] == 0x76 && info[3] == 0x02
    ensures t == Libre2CA <==> info[0] == 0x76 && info[3] == 0x04
    ensures t == LibreSense <==> info[0] == 0x76 && info[3] != 0x02 && info[3] != 0x04 && info[2] >> 4 == 7
    ensures t == Libre3 <==> !(info[0] in KnownCodes) && |info| > 6
  {
    match info[0]
    case 0xDF => Libre1
    case 0xA2 => Libre1
    case 0xE5 => LibreUS14day
    case 0x70 => LibreProH
    case 0x9D => Libre2
    case 0x76 =>
      if info[3] == 0x02 then Libre2US
      else if info[3] == 0x04 then Libre2CA
      else if info[2] >> 4 == 7 then LibreSense
      else Unknown
    case _ => if |info| > 6 then Libre3 else Unknown
  }

  /** The first bytes of patch info the type table names. */
  const KnownCodes: set<byte> := {0xDF, 0xA2, 0xE5, 0x70, 0x9D, 0x76}

  /** The Libre 2 family of types whose FRAM is encrypted. */
  predicate IsEncryptedType(t: SensorType)
  {
    t == Libre2 || t == LibreUS14day
  }

  datatype SensorFamily = Libre | LibrePro | Libre2Family | LibreSenseFamily

  function FamilyRaw(f: SensorFamily): nat
  {
    match f
    case Libre => 0
    case LibrePro => 1
    case Libre2Family => 3
    case LibreSenseFamily => 7
  }

  /** `SensorFamily(rawValue:)`. */
  function FamilyOf(raw: int): (f: Option<SensorFamily>)
    ensures f.Some? <==> raw in {0, 1, 3, 7}
    ensures f.Some? ==> FamilyRaw(f.value) == raw
  {
    if raw == 0 then Some(Libre)
    else if raw == 1 then Some(LibrePro)
    else if raw == 3 then Some(Libre2Family)
    else if raw == 7 then Some(LibreSenseFamily)
    else None
  }

  lemma FamilyRoundTrip(f: SensorFamily)
    ensures FamilyOf(FamilyRaw(f)) == Some(f)
  {
  }

  /** The decimal digit `"\(family.rawValue)"`. */
  function FamilyDigit(f: SensorFamily): char
  {
    match f
    case Libre => '0'
    case LibrePro => '1'
    case Libre2Family => '3'
    case LibreSenseFamily => '7'
  }

  datatype Option<T> = None | Some(value: T)

  /** The outcome of an operation that can throw. */
  datatype Result<T> = Ok(value: T) | Err

  datatype SensorState = StateUnknown | NotActivated | WarmingUp | Active | Expired | Shutdown | Failure

  function StateRaw(s: SensorState): byte
  {
    match s
    case StateUnknown => 0
    case NotActivated => 1
    case WarmingUp => 2
    case Active => 3
    case Expired => 4
    case Shutdown => 5
    case Failure => 6
  }

  /** `SensorState(rawValue:)`. */
  function StateOf(b: byte): (s: Option<SensorState>)
    ensures s.Some? <==> b <= 6
    ensures s.Some? ==> StateRaw(s.value) == b
  {
    if b == 0 then Some(StateUnknown)
    else if b == 1 then Some(NotActivated)
    else if b == 2 then Some(WarmingUp)
    else if b == 3 then Some(Active)
    else if b == 4 then Some(Expired)
    else if b == 5 then Some(Shutdown)
    else if b == 6 then Some(Failure)
    else None
  }

  lemma StateRoundTrip(s: SensorState)
    ensures StateOf(StateRaw(s)) == Some(s)
  {
  }

  /** The 32 symbols of serial numbers and status codes (no B, I, O, S). */
  const Alphabet: string := "0123456789ACDEFGHJKLMNPQRTUVWXYZ"

  /** `alphabet.firstIndex(of: c)`: the position of `c` in the alphabet. */
  function SymbolIndex(c: char): (r: Option<nat>)
    ensures r.Some? ==> r.value < 32 && Alphabet[r.value] == c
  {
    match c
    case '0' => Some(0)
    case '1' => Some(1)
    case '2' => Some(2)
    case '3' => Some(3)
    case '4' => Some(4)
    case '5' => Some(5)
    case '6' => Some(6)
    case '7' => Some(7)
    case '8' => Some(8)
    case '9' => Some(9)
    case 'A' => Some(10)
    case 'C' => Some(11)
    case 'D' => Some(12)
    case 'E' => Some(13)
    case 'F' => Some(14)
    case 'G' => Some(15)
    case 'H' => Some(16)
    case 'J' => Some(17)
    case 'K' => Some(18)
    case 'L' => Some(19)
    case 'M' => Some(20)
    case 'N' => Some(21)
    case 'P' => Some(22)
    case 'Q' => Some(23)
    case 'R' => Some(24)
    case 'T' => Some(25)
    case 'U' => Some(26)
    case 'V' => Some(27)
    case 'W' => Some(28)
    case 'X' => Some(29)
    case 'Y' => Some(30)
    case 'Z' => Some(31)
    case _ => None
  }

  /** Every symbol of the alphabet is found at its own position, so the
      table has no repeated symbol and lookup inverts indexing. */
  lemma AlphabetIndex(i: nat)
    requires i < 32
    ensures SymbolIndex(Alphabet[i]) == Some(i)
  {
    assert i == 0 || i == 1 || i == 2 || i == 3 || i == 4 || i == 5 || i == 6 || i == 7
      || i == 8 || i == 9 || i == 10 || i == 11 || i == 12 || i == 13 || i == 14 || i == 15
      || i == 16 || i == 17 || i == 18 || i == 19 || i == 20 || i == 21 || i == 22 || i == 23
      || i == 24 || i == 25 || i == 26 || i == 27 || i == 28 || i == 29 || i == 30 || i == 31;
  }

  /** A symbol is found exactly when it is in the alphabet. */
  lemma SymbolIndexFound(c: char)
    ensures SymbolIndex(c).Some? <==> c in Alphabet
  {
    if c in Alphabet {
      var i :| 0 <= i < |Alphabet| && Alphabet[i] == c;
      AlphabetIndex(i);
    }
  }

  // ---- serial number ----

  /** The ten `UInt8` expressions of `serialNumber` over the six uid bytes
      taken in reverse, `bytes = [uid[5], uid[4], ..., uid[0]]`. Shifts
      drop high bits; each `+` joins disjoint bits, so it never overflows. */
  function FiveBits(b: seq<byte>): (r: seq<byte>)
    requires |b| == 6
    ensures |r| == 10
  {
    seq(10, k requires 0 <= k < 10 => FiveBitsAt(b[0], b[1], b[2], b[3], b[4], b[5], k))
  }

  /** Expression k of `fiveBitsArray`, in the order they are appended. */
  function FiveBitsAt(b0: byte, b1: byte, b2: byte, b3: byte, b4: byte, b5: byte, k: int): byte
  {
    if k == 0 then b0 >> 3
    else if k == 1 then (b0 << 2) + (b1 >> 6)
    else if k == 2 then b1 >> 1
    else if k == 3 then (b1 << 4) + (b2 >> 4)
    else if k == 4 then (b2 << 1) + (b3 >> 7)
    else if k == 5 then b3 >> 2
    else if k == 6 then (b3 << 3) + (b4 >> 5)
    else if k == 7 then b4
    else if k == 8 then b5 >> 3
    else b5 << 2
  }

  /** `Array(uid.reversed().suffix(6))`: the first six uid bytes, last
      first. */
  function SerialBytes(uid: seq<byte>): (b: seq<byte>)
    requires |uid| == 8
    ensures |b| == 6 && forall i :: 0 <= i < 6 ==> b[i] == uid[5 - i]
  {
    [uid[5], uid[4], uid[3], uid[2], uid[1], uid[0]]
  }

  /** `serialNumber(uid:family:)`: "" unless the uid has 8 bytes. */
  function SerialNumber(uid: seq<byte>, family: SensorFamily): (s: string)
    ensures |uid| != 8 ==> s == ""
    ensures |uid| == 8 ==> |s| == 11 && s[0] == FamilyDigit(family)
  {
    if |uid| != 8 then ""
    else
      var five := FiveBits(SerialBytes(uid));
      [FamilyDigit(family)] + seq(10, k requires 0 <= k < 10 => Alphabet[(0x1F & five[k]) as int])
  }

  /** The ten masked symbols determine the six bytes: each bit of the
      bytes lands in exactly one symbol. */
  lemma FiveBitsInjective(a: seq<byte>, b: seq<byte>)
    requires |a| == 6 && |b| == 6
    requires forall k :: 0 <= k < 10 ==> 0x1F & FiveBits(a)[k] == 0x1F & FiveBits(b)[k]
    ensures a == b
  {
    forall k | 0 <= k < 10
      ensures Agree(a[0], a[1], a[2], a[3], a[4], a[5], b[0], b[1], b[2], b[3], b[4], b[5], k)
    {
      assert FiveBits(a)[k] == FiveBitsAt(a[0], a[1], a[2], a[3], a[4], a[5], k);
      assert FiveBits(b)[k] == FiveBitsAt(b[0], b[1], b[2], b[3], b[4], b[5], k);
    }
    SymbolsGiveBytes(a[0], a[1], a[2], a[3], a[4], a[5], b[0], b[1], b[2], b[3], b[4], b[5]);
    assert a == [a[0], a[1], a[2], a[3], a[4], a[5]];
    assert b == [b[0], b[1], b[2], b[3], b[4], b[5]];
  }

  /** Symbol k of two runs of six bytes agrees. */
  predicate Agree(a0: byte, a1: byte, a2: byte, a3: byte, a4: byte, a5: byte,
                 b0: byte, b1: byte, b2: byte, b3: byte, b4: byte, b5: byte, k: int)
  {
    0x1F & FiveBitsAt(a0, a1, a2, a3, a4, a5, k) == 0x1F & FiveBitsAt(b0, b1, b2, b3, b4, b5, k)
  }

  /** `FiveBitsInjective` over the bytes one by one. */
  lemma SymbolsGiveBytes(a0: byte, a1: byte, a2: byte, a3: byte, a4: byte, a5: byte,
                         b0: byte, b1: byte, b2: byte, b3: byte, b4: byte, b5: byte)
    requires forall k :: 0 <= k < 10 ==> Agree(a0, a1, a2, a3, a4, a5, b0, b1, b2, b3, b4, b5, k)
    ensures a0 == b0 && a1 == b1 && a2 == b2 && a3 == b3 && a4 == b4 && a5 == b5
  {
    assert Agree(a0, a1, a2, a3, a4, a5, b0, b1, b2, b3, b4, b5, 0);
    assert Agree(a0, a1, a2, a3, a4, a5, b0, b1, b2, b3, b4, b5, 1);
    assert Agree(a0, a1, a2, a3, a4, a5, b0, b1, b2, b3, b4, b5, 2);
    assert Agree(a0, a1, a2, a3, a4, a5, b0, b1, b2, b3, b4, b5, 3);
    assert Agree(a0, a1, a2, a3, a4, a5, b0, b1, b2, b3, b4, b5, 4);
    assert Agree(a0, a1, a2, a3, a4, a5, b0, b1, b2, b3, b4, b5, 5);
    assert Agree(a0, a1, a2, a3, a4, a5, b0, b1, b2, b3, b4, b5, 6);
    assert Agree(a0, a1, a2, a3, a4, a5, b0, b1, b2, b3, b4, b5, 7);
    assert Agree(a0, a1, a2, a3, a4, a5, b0, b1, b2, b3, b4, b5, 8);
    assert Agree(a0, a1, a2, a3, a4, a5, b0, b1, b2, b3, b4, b5, 9);
    ByteZero(a0, a1, a2, a3, a4, a5, b0, b1, b2, b3, b4, b5);
    ByteOne(a0, a1, a2, a3, a4, a5, b0, b1, b2, b3, b4, b5);
    ByteTwo(a0, a1, a2, a3, a4, a5, b0, b1, b2, b3, b4, b5);
    ByteThree(a0, a1, a2, a3, a4, a5, b0, b1, b2, b3, b4, b5);
    ByteFour(a0, a1, a2, a3, a4, a5, b0, b1, b2, b3, b4, b5);
    ByteFive(a0, a1, a2, a3, a4, a5, b0, b1, b2, b3, b4, b5);
  }

  /** Symbols 0 and 1 hold byte 0. */
  lemma ByteZero(a0: byte, a1: byte, a2: byte, a3: byte, a4: byte, a5: byte,
                 b0: byte, b1: byte, b2: byte, b3: byte, b4: byte, b5: byte)
    requires Agree(a0, a1, a2, a3, a4, a5, b0, b1, b2, b3, b4, b5, 0)
    requires Agree(a0, a1, a2, a3, a4, a5, b0, b1, b2, b3, b4, b5, 1)
    ensures a0 == b0
  {
  }

  /** Symbols 1-3 hold byte 1. */
  lemma ByteOne(a0: byte, a1: byte, a2: byte, a3: byte, a4: byte, a5: byte,
                b0: byte, b1: byte, b2: byte, b3: byte, b4: byte, b5: byte)
    requires Agree(a0, a1, a2, a3, a4, a5, b0, b1, b2, b3, b4, b5, 1)
    requires Agree(a0, a1, a2, a3, a4, a5, b0, b1, b2, b3, b4, b5, 2)
    requires Agree(a0, a1, a2, a3, a4, a5, b0, b1, b2, b3, b4, b5, 3)
    requires a0 == b0
    ensures a1 == b1
  {
  }

  /** Symbols 3 and 4 hold byte 2. */
  lemma ByteTwo(a0: byte, a1: byte, a2: byte, a3: byte, a4: byte, a5: byte,
                b0: byte, b1: byte, b2: byte, b3: byte, b4: byte, b5: byte)
    requires Agree(a0, a1, a2, a3, a4, a5, b0, b1, b2, b3, b4, b5, 3)
    requires Agree(a0, a1, a2, a3, a4, a5, b0, b1, b2, b3, b4, b5, 4)
    requires a1 == b1
    ensures a2 == b2
  {
  }

  /** Symbols 4-6 hold byte 3. */
  lemma ByteThree(a0: byte, a1: byte, a2: byte, a3: byte, a4: byte, a5: byte,
                  b0: byte, b1: byte, b2: byte, b3: byte, b4: byte, b5: byte)
    requires Agree(a0, a1, a2, a3, a4, a5, b0, b1, b2, b3, b4, b5, 4)
    requires Agree(a0, a1, a2, a3, a4, a5, b0, b1, b2, b3, b4, b5, 5)
    requires Agree(a0, a1, a2, a3, a4, a5, b0, b1, b2, b3, b4, b5, 6)
    requires a2 == b2
    ensures a3 == b3
  {
  }

  /** Symbols 6 and 7 hold byte 4. */
  lemma ByteFour(a0: byte, a1: byte, a2: byte, a3: byte, a4: byte, a5: byte,
                 b0: byte, b1: byte, b2: byte, b3: byte, b4: byte, b5: byte)
    requires Agree(a0, a1, a2, a3, a4, a5, b0, b1, b2, b3, b4, b5, 6)
    requires Agree(a0, a1, a2, a3, a4, a5, b0, b1, b2, b3, b4, b5, 7)
    requires a3 == b3
    ensures a4 == b4
  {
  }

  /** Symbols 8 and 9 hold byte 5. */
  lemma ByteFive(a0: byte, a1: byte, a2: byte, a3: byte, a4: byte, a5: byte,
                 b0: byte, b1: byte, b2: byte, b3: byte, b4: byte, b5: byte)
    requires Agree(a0, a1, a2, a3, a4, a5, b0, b1, b2, b3, b4, b5, 8)
    requires Agree(a0, a1, a2, a3, a4, a5, b0, b1, b2, b3, b4, b5, 9)
    ensures a5 == b5
  {
  }

  /** The serial number tells uids apart by their first six bytes: equal
      serials of one family come from uids that agree there. */
  lemma SerialNumberInjective(u: seq<byte>, v: seq<byte>, family: SensorFamily)
    requires |u| == 8 && |v| == 8 && SerialNumber(u, family) == SerialNumber(v, family)
    ensures u[..6] == v[..6]
  {
    var bu, bv := SerialBytes(u), SerialBytes(v);
    forall k | 0 <= k < 10
      ensures 0x1F & FiveBits(bu)[k] == 0x1F & FiveBits(bv)[k]
    {
      SerialSymbolIndex(u, family, k);
      SerialSymbolIndex(v, family, k);
    }
    FiveBitsInjective(bu, bv);
    assert u[..6] == v[..6] by {
      forall i | 0 <= i < 6
        ensures u[i] == v[i]
      {
        assert bu[5 - i] == bv[5 - i];
      }
    }
  }

  /** The symbol index of serial character k + 1 is masked 5-bit group k. */
  lemma SerialSymbolIndex(uid: seq<byte>, family: SensorFamily, k: int)
    requires |uid| == 8 && 0 <= k < 10
    ensures SymbolIndex(SerialNumber(uid, family)[k + 1]) == Some((0x1F & FiveBits(SerialBytes(uid))[k]) as int)
  {
    var i := (0x1F & FiveBits(SerialBytes(uid))[k]) as int;
    assert SerialNumber(uid, family)[k + 1] == Alphabet[i];
    AlphabetIndex(i);
  }

  /** Every symbol after the family digit comes from the 32-symbol table. */
  lemma SerialSymbols(uid: seq<byte>, family: SensorFamily)
    requires |uid| == 8
    ensures forall k :: 1 <= k < |SerialNumber(uid, family)| ==> SerialNumber(uid, family)[k] in Alphabet
  {
  }

  /** The last two uid bytes never reach the serial. */
  lemma SerialIgnoresLastBytes(uid: seq<byte>, x: byte, y: byte, family: SensorFamily)
    requires |uid| == 8
    ensures SerialNumber(uid, family) == SerialNumber(uid[..6] + [x, y], family)
  {
    var other := uid[..6] + [x, y];
    assert SerialBytes(uid) == SerialBytes(other);
  }

  // ---- status codes ----

  /** The 10-symbol code of a status: symbol i is base-32 digit i. */
  function StatusCode(status: nat): (code: string)
    ensures |code| == 10
  {
    seq(10, i requires 0 <= i < 10 => Alphabet[Digit(status, 32, i)])
  }

  /** `encodeStatusCode`. `Int(status >> (i * 5))` traps when the status
      does not fit an `Int`, hence the bound. */
  method EncodeStatusCode(status: nat) returns (code: string)
    requires status < 0x8000_0000_0000_0000
    ensures code == StatusCode(status)
  {
    code := "";
    for i := 0 to 10
      invariant code == StatusCode(status)[..i]
    {
      var d := (status / Pow(32, i)) % 32;
      DigitByDivision(status, 32, i);
      code := code + [Alphabet[d]];
    }
  }

  /** A code every one of whose first ten symbols is in the alphabet;
      `decodeStatusCode` force-unwraps the lookup of each. */
  predicate ValidCode(code: string)
  {
    |code| >= 10 && forall i :: 0 <= i < 10 ==> SymbolIndex(code[i]).Some?
  }

  function SymbolValue(c: char): (v: nat)
    requires SymbolIndex(c).Some?
    ensures v < 32 && Alphabet[v] == c
  {
    SymbolIndex(c).value
  }

  /** The sum of the first `n` symbol values times 32^i. */
  function CodeValue(code: string, n: nat): nat
    requires n <= 10 && ValidCode(code)
  {
    if n == 0 then 0 else CodeValue(code, n - 1) + SymbolValue(code[n - 1]) * Pow(32, n - 1)
  }

  /** `decodeStatusCode`. */
  method DecodeStatusCode(code: string) returns (status: nat)
    requires ValidCode(code)
    ensures status == CodeValue(code, 10)
    ensures status < 0x4_0000_0000_0000
  {
    status := 0;
    for i := 0 to 10
      invariant status == CodeValue(code, i)
    {
      var index := SymbolIndex(code[i]).value;
      status := status + index * Pow(32, i);
    }
    CodeValueBound(code, 10);
  }

  lemma {:induction false} CodeValueBound(code: string, n: nat)
    requires n <= 10 && ValidCode(code)
    ensures CodeValue(code, n) < Pow(32, n)
  {
    if n > 0 {
      CodeValueBound(code, n - 1);
      MulAtMost(SymbolValue(code[n - 1]), 31, Pow(32, n - 1));
      assert Pow(32, n) == 32 * Pow(32, n - 1);
    }
  }

  lemma MulAtMost(x: nat, m: nat, p: nat)
    requires x <= m
    ensures x * p <= m * p
  {
  }

  /** Decoding the code of a status gives the status modulo 2^50, so every
      status below 2^50 survives the round trip. */
  lemma DecodeEncode(status: nat)
    ensures ValidCode(StatusCode(status))
    ensures CodeValue(StatusCode(status), 10) == status % Pow(32, 10)
  {
    var code := StatusCode(status);
    forall i | 0 <= i < 10
      ensures SymbolValue(code[i]) == Digit(status, 32, i)
    {
      AlphabetIndex(Digit(status, 32, i));
    }
    CodeValueIsDigits(code, status, 10);
    DigitsIsMod(status, 32, 10);
  }

  lemma {:induction false} CodeValueIsDigits(code: string, status: nat, n: nat)
    requires n <= 10 && ValidCode(code)
    requires forall i :: 0 <= i < 10 ==> SymbolValue(code[i]) == Digit(status, 32, i)
    ensures CodeValue(code, n) == Digits(status, 32, n)
  {
    if n > 0 {
      CodeValueIsDigits(code, status, n - 1);
      DigitsSnoc(status, 32, n - 1);
    }
  }

  /** Encoding a decoded code gives back its first ten symbols. */
  lemma EncodeDecode(code: string)
    requires ValidCode(code)
    ensures StatusCode(CodeValue(code, 10)) == code[..10]
  {
    var v := CodeValue(code, 10);
    forall i | 0 <= i < 10
      ensures Digit(v, 32, i) == SymbolValue(code[i])
    {
      CodeValueDigit(code, 10, i);
    }
  }

  /** Digit i of the value of the first n symbols is symbol i's value. */
  lemma {:induction false} CodeValueDigit(code: string, n: nat, i: nat)
    requires n <= 10 && ValidCode(code) && i < n
    ensures Digit(CodeValue(code, n), 32, i) == SymbolValue(code[i])
  {
    CodeValueBound(code, n - 1);
    var low := CodeValue(code, n - 1);
    var top := SymbolValue(code[n - 1]);
    // CodeValue(code, n) == low + top * 32^(n-1) with low < 32^(n-1)
    if i == n - 1 {
      DigitOfSum(low, top, n - 1);
    } else {
      DigitBelow(low, top, n - 1, i);
      CodeValueDigit(code, n - 1, i);
    }
  }

  lemma DigitOfSum(low: nat, top: nat, k: nat)
    requires low < Pow(32, k) && top < 32
    ensures Digit(low + top * Pow(32, k), 32, k) == top
  {
    var v := low + top * Pow(32, k);
    DigitByDivision(v, 32, k);
    DivUnique(v, Pow(32, k), top, low);
  }

  lemma DigitBelow(low: nat, top: nat, k: nat, i: nat)
    requires low < Pow(32, k) && i < k
    ensures Digit(low + top * Pow(32, k), 32, i) == Digit(low, 32, i)
    decreases i
  {
    var v := low + top * Pow(32, k);
    if i == 0 {
      assert Pow(32, k) == 32 * Pow(32, k - 1);
      assert v == low + 32 * (top * Pow(32, k - 1));
    } else {
      assert Pow(32, k) == 32 * Pow(32, k - 1);
      DivUnique(low, 32, low / 32, low % 32);
      assert v == (low / 32 + top * Pow(32, k - 1)) * 32 + low % 32;
      DivUnique(v, 32, low / 32 + top * Pow(32, k - 1), low % 32);
      DivBelowPow(low, k);
      DigitBelow(low / 32, top, k - 1, i - 1);
    }
  }

  lemma DivBelowPow(low: nat, k: nat)
    requires k > 0 && low < Pow(32, k)
    ensures low / 32 < Pow(32, k - 1)
  {
    assert Pow(32, k) == 32 * Pow(32, k - 1);
  }
}
